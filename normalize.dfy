/** The comparison normaliser of functions.py (`normalize_for_compare`):
    NFC composition, lower-casing and `strip`, then removal of every
    character that is not a word character, whitespace or a Hangul syllable
    (`_PUNCT_RE`), then replacement of every whitespace run by one space.
    The Unicode primitives are the parameters bundled in `Text.Unicode`. */
module Normalize {
  import opened Text

  /** The characters `_PUNCT_RE` leaves in place: `\w`, `\s` and the Hangul
      syllable block U+AC00..U+D7A3. */
  predicate Kept(u: Unicode, c: char) {
    u.isWord(c) || u.isSpace(c) || '\U{AC00}' <= c <= '\U{D7A3}'
  }

  ghost predicate AllKept(u: Unicode, s: string) {
    forall i :: 0 <= i < |s| ==> Kept(u, s[i])
  }

  /** No two neighbouring characters are both whitespace. */
  ghost predicate NoDoubleSpace(u: Unicode, s: string) {
    forall i :: 0 <= i < |s| - 1 ==> !(u.isSpace(s[i]) && u.isSpace(s[i + 1]))
  }

  /** The only whitespace character left is the plain space. */
  ghost predicate SpacesArePlain(u: Unicode, s: string) {
    forall i :: 0 <= i < |s| ==> u.isSpace(s[i]) ==> s[i] == ' '
  }

  // ---------------------------------------------------------------------
  // Stage 1: `_PUNCT_RE.sub("", s)`
  // ---------------------------------------------------------------------

  /** Deletes every character outside `Kept`, keeping the others in order. */
  function RemovePunct(u: Unicode, s: string): (r: string)
    ensures |r| <= |s|
    ensures AllKept(u, r)
    ensures AllKept(u, s) ==> r == s
    decreases |s|
  {
    if s == [] then []
    else (if Kept(u, s[0]) then [s[0]] else []) + RemovePunct(u, s[1..])
  }

  /** Deletion works character by character: the result for a concatenation
      is the concatenation of the results, so the kept characters stay in
      their original order. */
  lemma {:induction false} RemovePunctAppend(u: Unicode, a: string, b: string)
    ensures RemovePunct(u, a + b) == RemovePunct(u, a) + RemovePunct(u, b)
    decreases |a|
  {
    if a == [] {
      assert a + b == b;
    } else {
      assert (a + b)[0] == a[0] && (a + b)[1..] == a[1..] + b;
      RemovePunctAppend(u, a[1..], b);
    }
  }

  /** A single character is kept exactly when it is in `Kept`. */
  lemma RemovePunctChar(u: Unicode, c: char)
    ensures RemovePunct(u, [c]) == if Kept(u, c) then [c] else []
  {
  }

  /** Removing punctuation twice removes nothing more. */
  lemma RemovePunctIdempotent(u: Unicode, s: string)
    ensures RemovePunct(u, RemovePunct(u, s)) == RemovePunct(u, s)
  {
  }

  // ---------------------------------------------------------------------
  // Stage 2: `re.sub(r"\s+", " ", s)`
  // ---------------------------------------------------------------------

  /** Replaces every maximal run of whitespace by a single space. */
  function CollapseSpaces(u: Unicode, s: string): (r: string)
    ensures |r| <= |s|
    ensures r == [] <==> s == []
    ensures s != [] ==> r[0] == if u.isSpace(s[0]) then ' ' else s[0]
    decreases |s|
  {
    if s == [] then []
    else if u.isSpace(s[0]) then [' '] + CollapseSpaces(u, StripLeft(s[1..], u.isSpace))
    else [s[0]] + CollapseSpaces(u, s[1..])
  }

  /** The mirror of the first-character rule: a trailing whitespace run
      becomes one plain space, and otherwise the last character is kept. */
  lemma {:induction false} CollapseSpacesLast(u: Unicode, s: string)
    requires s != []
    ensures var r := CollapseSpaces(u, s);
      r[|r| - 1] == if u.isSpace(s[|s| - 1]) then ' ' else s[|s| - 1]
    decreases |s|
  {
    var t := if u.isSpace(s[0]) then StripLeft(s[1..], u.isSpace) else s[1..];
    if t != [] {
      if u.isSpace(s[0]) {
        StripLeftRemovesSpace(s[1..], u.isSpace);
      }
      assert t[|t| - 1] == s[|s| - 1];
      CollapseSpacesLast(u, t);
    } else if u.isSpace(s[0]) && |s| > 1 {
      StripLeftRemovesSpace(s[1..], u.isSpace);
      assert s[1..][|s| - 2] == s[|s| - 1];
    }
  }

  /** After collapsing, every whitespace character is a plain space and no
      two of them are neighbours. */
  lemma {:induction false} CollapseSpacesShape(u: Unicode, s: string)
    ensures SpacesArePlain(u, CollapseSpaces(u, s))
    ensures NoDoubleSpace(u, CollapseSpaces(u, s))
    decreases |s|
  {
    if s != [] {
      var r := CollapseSpaces(u, s);
      var t := if u.isSpace(s[0]) then StripLeft(s[1..], u.isSpace) else s[1..];
      var rest := CollapseSpaces(u, t);
      CollapseSpacesShape(u, t);
      assert r == [r[0]] + rest;
      assert u.isSpace(r[0]) ==> r[0] == ' ';
      assert u.isSpace(s[0]) ==> rest == [] || !u.isSpace(rest[0]);
      forall i | 0 <= i < |r| ensures u.isSpace(r[i]) ==> r[i] == ' ' {
        if i > 0 { assert r[i] == rest[i - 1]; }
      }
      forall i | 0 <= i < |r| - 1 ensures !(u.isSpace(r[i]) && u.isSpace(r[i + 1])) {
        if i > 0 { assert r[i] == rest[i - 1] && r[i + 1] == rest[i]; }
      }
    }
  }

  /** Text whose whitespace is already single plain spaces is left alone. */
  lemma {:induction false} CollapseSpacesFixed(u: Unicode, s: string)
    requires SpacesArePlain(u, s) && NoDoubleSpace(u, s)
    ensures CollapseSpaces(u, s) == s
    decreases |s|
  {
    if s != [] {
      var t := s[1..];
      assert t == s[1..|s|];
      SliceKeepsShape(u, s, 1, |s| - 1);
      if u.isSpace(s[0]) {
        assert t == [] || !u.isSpace(t[0]);
        assert StripLeft(t, u.isSpace) == t;
      }
      CollapseSpacesFixed(u, t);
    }
  }

  /** Collapsing whitespace twice changes nothing more. */
  lemma CollapseSpacesIdempotent(u: Unicode, s: string)
    ensures CollapseSpaces(u, CollapseSpaces(u, s)) == CollapseSpaces(u, s)
  {
    CollapseSpacesShape(u, s);
    CollapseSpacesFixed(u, CollapseSpaces(u, s));
  }

  /** Collapsing changes only the spacing, never the words: the text
      splits into the same words before and after. */
  lemma {:induction false} SplitCollapse(u: Unicode, s: string)
    requires u.isSpace(' ')
    ensures Split(CollapseSpaces(u, s), u.isSpace) == Split(s, u.isSpace)
    decreases |s|
  {
    if s != [] {
      var c, x := s[0], s[1..];
      assert s == [c] + x;
      if u.isSpace(c) {
        var t := StripLeft(x, u.isSpace);
        SplitCollapse(u, t);
        SplitSpace(' ', CollapseSpaces(u, t), u.isSpace);
        SplitStripLeft(x, u.isSpace);
        SplitSpace(c, x, u.isSpace);
      } else {
        var y := CollapseSpaces(u, x);
        SplitCollapse(u, x);
        SplitCons(c, x, u.isSpace);
        SplitCons(c, y, u.isSpace);
      }
    }
  }

  /** Collapsing keeps every non-whitespace character, in order. */
  lemma NonSpaceCollapse(u: Unicode, s: string)
    requires u.isSpace(' ')
    ensures NonSpace(CollapseSpaces(u, s), u.isSpace) == NonSpace(s, u.isSpace)
  {
    SplitCollapse(u, s);
    ConcatSplit(s, u.isSpace);
    ConcatSplit(CollapseSpaces(u, s), u.isSpace);
  }

  /** Text spaced with single plain spaces and trimmed at both ends is its
      own words joined by single spaces. */
  lemma {:induction false} JoinSplitSpaced(u: Unicode, r: string)
    requires SpacesArePlain(u, r) && NoDoubleSpace(u, r)
    requires r == [] || (!u.isSpace(r[0]) && !u.isSpace(r[|r| - 1]))
    ensures Join(Split(r, u.isSpace), " ") == r
    decreases |r|
  {
    if r != [] {
      var w := WordAt(r, u.isSpace);
      if |w| == |r| {
        assert r == w + [];
        SplitWordThen(w, [], u.isSpace);
      } else {
        var tail := AfterFirstWord(u, r);
        JoinSplitSpaced(u, tail);
        SplitWordThen(w, [' '] + tail, u.isSpace);
        JoinBack(w, Split(tail, u.isSpace), tail);
      }
    }
  }

  /** Putting a word in front of pieces that join to `tail`. */
  lemma JoinBack(w: string, ws: seq<string>, tail: string)
    requires ws != [] && Join(ws, " ") == tail
    ensures Join([w] + ws, " ") == w + ([' '] + tail)
  {
    JoinCons(w, ws, " ");
    assert w + " " + tail == w + ([' '] + tail);
  }

  /** In such text a word that does not reach the end is followed by one
      plain space and then a shorter text of the same kind. */
  lemma AfterFirstWord(u: Unicode, r: string) returns (tail: string)
    requires SpacesArePlain(u, r) && NoDoubleSpace(u, r)
    requires r != [] && !u.isSpace(r[0]) && !u.isSpace(r[|r| - 1])
    requires |WordAt(r, u.isSpace)| < |r|
    ensures var w := WordAt(r, u.isSpace);
      r == w + ([' '] + tail) && IsWord(w, u.isSpace)
      && Split([' '] + tail, u.isSpace) == Split(tail, u.isSpace)
    ensures u.isSpace(' ') && |tail| < |r| && Split(tail, u.isSpace) != []
    ensures SpacesArePlain(u, tail) && NoDoubleSpace(u, tail)
    ensures !u.isSpace(tail[0]) && !u.isSpace(tail[|tail| - 1])
  {
    var w := WordAt(r, u.isSpace);
    WordAtStops(r, u.isSpace);
    var rest := r[|w|..];
    tail := rest[1..];
    assert rest[0] == r[|w|] == ' ';
    assert |w| >= 1 && |rest| >= 2;
    assert tail == r[|w| + 1..|r|];
    SliceKeepsShape(u, r, |w| + 1, |r| - |w| - 1);
    assert tail[0] == r[|w| + 1] && tail[|tail| - 1] == r[|r| - 1];
    assert rest == [' '] + tail;
    assert r == w + rest;
    SplitSpace(' ', tail, u.isSpace);
  }

  /** Collapsing whitespace and stripping the ends, as the corrected
      normaliser does, is the same as `" ".join(s.split())`. */
  lemma CollapseStripIsJoin(u: Unicode, s: string)
    requires u.isSpace(' ')
    ensures Join(Split(s, u.isSpace), " ") == Strip(CollapseSpaces(u, s), u.isSpace)
  {
    var c := CollapseSpaces(u, s);
    var r := Strip(c, u.isSpace);
    CollapseSpacesShape(u, s);
    StripKeepsShape(u, c);
    JoinSplitSpaced(u, r);
    SplitStrip(c, u.isSpace);
    SplitCollapse(u, s);
  }

  /** Collapsing keeps every character in `Kept` when the input was, since
      the plain space it introduces is whitespace. */
  lemma {:induction false} CollapseSpacesKept(u: Unicode, s: string)
    requires AllKept(u, s)
    ensures u.isSpace(' ') ==> AllKept(u, CollapseSpaces(u, s))
    decreases |s|
  {
    if s != [] {
      if u.isSpace(s[0]) {
        var t := StripLeft(s[1..], u.isSpace);
        assert forall i :: 0 <= i < |t| ==> t[i] == s[1..][|s| - 1 - |t| + i];
        CollapseSpacesKept(u, t);
      } else {
        CollapseSpacesKept(u, s[1..]);
      }
    }
  }

  // ---------------------------------------------------------------------
  // The whole normaliser
  // ---------------------------------------------------------------------

  /** `normalize_for_compare` as written: strip first, then remove
      punctuation, then collapse whitespace. Its result holds only word
      characters, Hangul syllables and single plain spaces. */
  function NormalizeForCompare(u: Unicode, s: string): (r: string)
    ensures u.isSpace(' ') ==> AllKept(u, r)
    ensures SpacesArePlain(u, r) && NoDoubleSpace(u, r)
  {
    var t := RemovePunct(u, Strip(u.lower(u.nfc(s)), u.isSpace));
    CollapseSpacesKept(u, t);
    CollapseSpacesShape(u, t);
    CollapseSpaces(u, t)
  }

  const Hello: string := "hello"
  const HelloSpace: string := Hello + " "
  /** "hello !" */
  const HelloBang: string := HelloSpace + "!"

  /** What Python's Unicode tables say about the characters of "hello !":
      NFC and lower-casing leave "hello !" and "hello " unchanged, the
      letters are word characters and not whitespace, "!" is neither, and
      the space is whitespace. */
  ghost predicate PythonOnHello(u: Unicode) {
    u.nfc(HelloBang) == HelloBang && u.lower(HelloBang) == HelloBang
    && u.nfc(HelloSpace) == HelloSpace && u.lower(HelloSpace) == HelloSpace
    && (forall i :: 0 <= i < |Hello| ==> u.isWord(Hello[i]) && !u.isSpace(Hello[i]))
    && !u.isWord('!') && !u.isSpace('!') && u.isSpace(' ')
  }

  /** Because the source strips before it removes punctuation, the space in
      front of a trailing "!" survives: "hello !" normalises to "hello ",
      which normalises again to "hello". The normaliser is not idempotent. */
  lemma NormalizeForCompareNotIdempotent(u: Unicode)
    requires PythonOnHello(u)
    ensures NormalizeForCompare(u, HelloBang) == HelloSpace
    ensures NormalizeForCompare(u, NormalizeForCompare(u, HelloBang)) == Hello
  {
    var sp := u.isSpace;
    assert HelloSpace[0] == 'h' && HelloSpace[5] == ' ' && HelloBang[0] == 'h' && HelloBang[6] == '!';
    assert forall i :: 0 <= i < 5 ==> HelloSpace[i] == Hello[i];
    assert AllKept(u, Hello);
    assert AllKept(u, HelloSpace);
    assert Strip(HelloBang, sp) == HelloBang by { StripStripped(HelloBang, sp); }
    assert RemovePunct(u, HelloBang) == HelloSpace by {
      RemovePunctAppend(u, HelloSpace, "!");
    }
    assert CollapseSpaces(u, HelloSpace) == HelloSpace by {
      CollapseSpacesFixed(u, HelloSpace);
    }
    assert Strip(HelloSpace, sp) == Hello by {
      assert StripLeft(HelloSpace, sp) == HelloSpace;
      assert HelloSpace[..5] == Hello;
      assert StripRight(HelloSpace, sp) == StripRight(Hello, sp);
      assert !sp(Hello[4]);
    }
    assert CollapseSpaces(u, Hello) == Hello by { CollapseSpacesFixed(u, Hello); }
  }

  /** The normaliser with the strip moved to the end, after punctuation
      removal and whitespace collapsing, so that no space is left at either
      end. */
  function NormalizeStripped(u: Unicode, s: string): (r: string)
    ensures u.isSpace(' ') ==> AllKept(u, r)
    ensures SpacesArePlain(u, r) && NoDoubleSpace(u, r)
    ensures r == [] || (!u.isSpace(r[0]) && !u.isSpace(r[|r| - 1]))
  {
    var n := NormalizeForCompare(u, s);
    StripKeepsShape(u, n);
    Strip(n, u.isSpace)
  }

  /** Stripping normalised text leaves normalised text. */
  lemma StripKeepsShape(u: Unicode, n: string)
    ensures var r := Strip(n, u.isSpace);
      (AllKept(u, n) ==> AllKept(u, r))
      && (SpacesArePlain(u, n) ==> SpacesArePlain(u, r))
      && (NoDoubleSpace(u, n) ==> NoDoubleSpace(u, r))
  {
    StripSpec(n, u.isSpace);
    SliceKeepsShape(u, n, |n| - |StripLeft(n, u.isSpace)|, |Strip(n, u.isSpace)|);
  }

  /** A slice of normalised text is still normalised text. */
  lemma SliceKeepsShape(u: Unicode, n: string, a: nat, len: nat)
    requires a + len <= |n|
    ensures AllKept(u, n) ==> AllKept(u, n[a..a + len])
    ensures SpacesArePlain(u, n) ==> SpacesArePlain(u, n[a..a + len])
    ensures NoDoubleSpace(u, n) ==> NoDoubleSpace(u, n[a..a + len])
  {
    var r := n[a..a + len];
    if AllKept(u, n) {
      forall i | 0 <= i < |r| ensures Kept(u, r[i]) { assert r[i] == n[a + i]; }
    }
    if SpacesArePlain(u, n) {
      forall i | 0 <= i < |r| ensures u.isSpace(r[i]) ==> r[i] == ' ' { assert r[i] == n[a + i]; }
    }
    if NoDoubleSpace(u, n) {
      forall i | 0 <= i < |r| - 1 ensures !(u.isSpace(r[i]) && u.isSpace(r[i + 1])) {
        assert r[i] == n[a + i] && r[i + 1] == n[a + i + 1];
      }
    }
  }

  /** With the strip at the end the normaliser is idempotent, provided NFC
      and lower-casing leave its output unchanged. */
  lemma NormalizeStrippedIdempotent(u: Unicode, s: string)
    requires u.isSpace(' ')
    requires var r := NormalizeStripped(u, s); u.nfc(r) == r && u.lower(r) == r
    ensures NormalizeStripped(u, NormalizeStripped(u, s)) == NormalizeStripped(u, s)
  {
    NormalizedIsFixed(u, NormalizeStripped(u, s));
  }

  /** Text that already has the normalised shape is its own normal form. */
  lemma NormalizedIsFixed(u: Unicode, r: string)
    requires u.isSpace(' ') && u.nfc(r) == r && u.lower(r) == r
    requires AllKept(u, r) && SpacesArePlain(u, r) && NoDoubleSpace(u, r)
    requires r == [] || (!u.isSpace(r[0]) && !u.isSpace(r[|r| - 1]))
    ensures NormalizeStripped(u, r) == r
  {
    StripStripped(r, u.isSpace);
    CollapseSpacesFixed(u, r);
    NormalizeForCompareFixed(u, r);
  }

  lemma NormalizeForCompareFixed(u: Unicode, r: string)
    requires u.nfc(r) == r && u.lower(r) == r && Strip(r, u.isSpace) == r
    requires AllKept(u, r) && CollapseSpaces(u, r) == r
    ensures NormalizeForCompare(u, r) == r
  {
  }
}
