/** Shared text and byte helpers: the small pieces of Python's `str` and
    `bytes` behaviour that the application code relies on (`in` on strings,
    `sep.join`, `str.strip`, `str.split`, and the decimal digits of a
    non-negative number), written once and used by every other module. */
module Text {

  datatype Option<+T> = None | Some(value: T)

  newtype byte = x: int | 0 <= x < 256

  type Bytes = seq<byte>

  /** The Unicode primitives the application takes from Python. They are
      parameters of the model rather than tables: `nfc` is
      `unicodedata.normalize("NFC", _)`, `lower` is `str.lower`, `isWord` is
      the regular-expression class `\w` and `isSpace` is `\s`, which for
      `str` patterns is the same class as `str.isspace` (used by `strip`). */
  datatype Unicode = Unicode(
    nfc: string -> string,
    lower: string -> string,
    isWord: char -> bool,
    isSpace: char -> bool)

  // ---------------------------------------------------------------------
  // Substring test (Python's `sub in s` for strings)
  // ---------------------------------------------------------------------

  predicate IsPrefix(p: string, s: string) {
    |p| <= |s| && s[..|p|] == p
  }

  /** `sub in s`: decided by scanning the start positions of `s` in order. */
  predicate IsInfix(sub: string, s: string)
    ensures IsInfix(sub, s) ==> |sub| <= |s|
    decreases |s|
  {
    IsPrefix(sub, s) || (|s| > 0 && IsInfix(sub, s[1..]))
  }

  ghost predicate OccursAt(sub: string, s: string, i: int) {
    0 <= i && i + |sub| <= |s| && s[i..i + |sub|] == sub
  }

  /** The scan finds `sub` exactly when some position of `s` starts a copy of it. */
  lemma {:induction false} IsInfixIff(sub: string, s: string)
    ensures IsInfix(sub, s) <==> exists i :: OccursAt(sub, s, i)
    decreases |s|
  {
    if IsPrefix(sub, s) {
      assert OccursAt(sub, s, 0);
    } else if |s| == 0 {
    } else {
      IsInfixIff(sub, s[1..]);
      if IsInfix(sub, s[1..]) {
        var i :| OccursAt(sub, s[1..], i);
        assert s[1..][i..i + |sub|] == s[i + 1..i + 1 + |sub|];
        assert OccursAt(sub, s, i + 1);
      }
      if exists i :: OccursAt(sub, s, i) {
        var i :| OccursAt(sub, s, i);
        assert s[1..][i - 1..i - 1 + |sub|] == s[i..i + |sub|];
        assert OccursAt(sub, s[1..], i - 1);
      }
    }
  }

  /** A copy of `sub` at a known position is found by the scan. */
  lemma InfixAt(sub: string, s: string, i: int)
    requires OccursAt(sub, s, i)
    ensures IsInfix(sub, s)
  {
    IsInfixIff(sub, s);
  }

  /** Where the middle part of a concatenation sits. */
  lemma MiddleOf(a: string, b: string, c: string)
    ensures OccursAt(b, a + b + c, |a|)
  {
    assert (a + b + c)[|a|..|a| + |b|] == b;
  }

  /** Where the two copies of `x` sit in a template that places it twice. */
  lemma PlacedTwice(lead: string, x: string, mid: string, tail: string)
    ensures OccursAt(x, lead + x + mid + x + tail, |lead|)
    ensures OccursAt(x, lead + x + mid + x + tail, |lead| + |x| + |mid|)
  {
    MiddleOf(lead, x, mid + x + tail);
    assert lead + x + mid + x + tail == lead + x + (mid + x + tail);
    MiddleOf(lead + x + mid, x, tail);
  }

  /** A copy of `a` inside a copy of `b` is a copy of `a` in whatever holds `b`. */
  lemma OccursWithin(a: string, b: string, c: string, i: int, j: int)
    requires OccursAt(a, b, i) && OccursAt(b, c, j)
    ensures OccursAt(a, c, i + j)
  {
    forall k | 0 <= k < |a| ensures c[i + j + k] == a[k] {
      assert a[k] == b[i..i + |a|][k] == b[i + k];
      assert b[i + k] == c[j..j + |b|][i + k];
    }
    assert c[i + j..i + j + |a|] == a;
  }

  // ---------------------------------------------------------------------
  // `sep.join(parts)`
  // ---------------------------------------------------------------------

  /** `sep.join(parts)`. */
  function Join(parts: seq<string>, sep: string): string
    decreases |parts|
  {
    if |parts| == 0 then ""
    else if |parts| == 1 then parts[0]
    else Join(parts[..|parts| - 1], sep) + sep + parts[|parts| - 1]
  }

  /** The result's length is the pieces' total length plus one separator
      between each neighbouring pair. */
  lemma {:induction false} JoinLength(parts: seq<string>, sep: string)
    ensures |Join(parts, sep)| == TotalLength(parts) + (if parts == [] then 0 else (|parts| - 1) * |sep|)
    decreases |parts|
  {
    if |parts| > 1 {
      var init, n := parts[..|parts| - 1], |parts| - 2;
      JoinLength(init, sep);
      assert (n + 1) * |sep| == n * |sep| + |sep|;
    }
  }

  function TotalLength(parts: seq<string>): nat
    decreases |parts|
  {
    if parts == [] then 0 else TotalLength(parts[..|parts| - 1]) + |parts[|parts| - 1]|
  }

  // ---------------------------------------------------------------------
  // `str.strip()` with no argument
  // ---------------------------------------------------------------------

  /** `s.lstrip()`: a suffix of `s` that does not start with whitespace. */
  function StripLeft(s: string, isSpace: char -> bool): (r: string)
    ensures |r| <= |s| && r == s[|s| - |r|..]
    ensures r == [] || !isSpace(r[0])
    decreases |s|
  {
    if s != [] && isSpace(s[0]) then StripLeft(s[1..], isSpace) else s
  }

  /** Everything `StripLeft` removes is whitespace. */
  lemma {:induction false} StripLeftRemovesSpace(s: string, isSpace: char -> bool)
    ensures forall i :: 0 <= i < |s| - |StripLeft(s, isSpace)| ==> isSpace(s[i])
    decreases |s|
  {
    if s != [] && isSpace(s[0]) {
      StripLeftRemovesSpace(s[1..], isSpace);
      assert forall i :: 1 <= i < |s| ==> s[i] == s[1..][i - 1];
    }
  }

  /** `s.rstrip()`: a prefix of `s` that does not end with whitespace. */
  function StripRight(s: string, isSpace: char -> bool): (r: string)
    ensures |r| <= |s| && r == s[..|r|]
    ensures r == [] || !isSpace(r[|r| - 1])
    decreases |s|
  {
    if s != [] && isSpace(s[|s| - 1]) then StripRight(s[..|s| - 1], isSpace) else s
  }

  /** Everything `StripRight` removes is whitespace. */
  lemma {:induction false} StripRightRemovesSpace(s: string, isSpace: char -> bool)
    ensures forall i :: |StripRight(s, isSpace)| <= i < |s| ==> isSpace(s[i])
    decreases |s|
  {
    if s != [] && isSpace(s[|s| - 1]) {
      StripRightRemovesSpace(s[..|s| - 1], isSpace);
    }
  }

  /** `s.strip()`: never longer than `s`, and neither starting nor ending
      with whitespace. */
  function Strip(s: string, isSpace: char -> bool): (r: string)
    ensures |r| <= |s|
    ensures r == [] || (!isSpace(r[0]) && !isSpace(r[|r| - 1]))
  {
    var l := StripLeft(s, isSpace);
    var r := StripRight(l, isSpace);
    assert r != [] ==> r[0] == l[0];
    r
  }

  /** `strip` removes whitespace from both ends and nothing else: the result
      is the slice of `s` that starts where `StripLeft` stops, and everything
      cut away on either side is whitespace. */
  lemma StripSpec(s: string, isSpace: char -> bool)
    ensures var a := |s| - |StripLeft(s, isSpace)|;
      a + |Strip(s, isSpace)| <= |s| && Strip(s, isSpace) == s[a..a + |Strip(s, isSpace)|]
    ensures forall i :: 0 <= i < |s| - |StripLeft(s, isSpace)| ==> isSpace(s[i])
    ensures forall i :: |s| - |StripLeft(s, isSpace)| + |Strip(s, isSpace)| <= i < |s| ==> isSpace(s[i])
  {
    var l := StripLeft(s, isSpace);
    var r := StripRight(l, isSpace);
    StripLeftRemovesSpace(s, isSpace);
    StripRightRemovesSpace(l, isSpace);
    var a := |s| - |l|;
    assert r == s[a..a + |r|] by {
      assert l == s[a..];
      assert r == l[..|r|];
    }
    forall i | a + |r| <= i < |s| ensures isSpace(s[i]) {
      assert s[i] == l[i - a];
    }
  }

  /** Stripping a string with no whitespace at either end changes nothing. */
  lemma StripStripped(s: string, isSpace: char -> bool)
    requires s == [] || (!isSpace(s[0]) && !isSpace(s[|s| - 1]))
    ensures Strip(s, isSpace) == s
  {
  }

  // ---------------------------------------------------------------------
  // `str.split()` with no argument
  // ---------------------------------------------------------------------

  /** A word: non-empty and free of whitespace. */
  predicate IsWord(w: string, isSpace: char -> bool) {
    w != [] && forall j :: 0 <= j < |w| ==> !isSpace(w[j])
  }

  /** The longest prefix of `s` that holds no whitespace. */
  function WordAt(s: string, isSpace: char -> bool): (w: string)
    ensures |w| <= |s| && w == s[..|w|]
    ensures s != [] && !isSpace(s[0]) ==> IsWord(w, isSpace)
    decreases |s|
  {
    if s == [] || isSpace(s[0]) then [] else [s[0]] + WordAt(s[1..], isSpace)
  }

  /** The word stops only at whitespace or at the end of `s`. */
  lemma {:induction false} WordAtStops(s: string, isSpace: char -> bool)
    ensures var w := WordAt(s, isSpace); |w| < |s| ==> isSpace(s[|w|])
    decreases |s|
  {
    if s != [] && !isSpace(s[0]) {
      WordAtStops(s[1..], isSpace);
    }
  }

  /** `s.split()`: the maximal runs of non-whitespace characters, in order. */
  function Split(s: string, isSpace: char -> bool): (ws: seq<string>)
    ensures forall i :: 0 <= i < |ws| ==> IsWord(ws[i], isSpace)
    decreases |s|
  {
    if s == [] then []
    else if isSpace(s[0]) then Split(s[1..], isSpace)
    else
      var w := WordAt(s, isSpace);
      [w] + Split(s[|w|..], isSpace)
  }

  /** Leading whitespace is skipped: it starts no word. */
  lemma SplitSpace(c: char, x: string, isSpace: char -> bool)
    requires isSpace(c)
    ensures Split([c] + x, isSpace) == Split(x, isSpace)
  {
    assert ([c] + x)[1..] == x;
  }

  /** A non-whitespace character in front of `x` starts the first word of
      `x` when `x` itself starts with a word, and a word of its own
      otherwise. */
  lemma SplitCons(c: char, x: string, isSpace: char -> bool)
    requires !isSpace(c)
    ensures var ws := Split(x, isSpace);
      Split([c] + x, isSpace)
      == if x != [] && !isSpace(x[0]) then [[c] + ws[0]] + ws[1..] else [[c]] + ws
  {
    var s := [c] + x;
    assert s[1..] == x;
    var w := WordAt(x, isSpace);
    assert WordAt(s, isSpace) == [c] + w;
    assert s[|[c] + w|..] == x[|w|..];
  }

  /** Stripping leading whitespace does not change the words. */
  lemma {:induction false} SplitStripLeft(t: string, isSpace: char -> bool)
    ensures Split(StripLeft(t, isSpace), isSpace) == Split(t, isSpace)
    decreases |t|
  {
    if t != [] && isSpace(t[0]) {
      SplitStripLeft(t[1..], isSpace);
    }
  }

  /** Whitespace alone holds no word. */
  lemma {:induction false} SplitAllSpace(sp: string, isSpace: char -> bool)
    requires forall i :: 0 <= i < |sp| ==> isSpace(sp[i])
    ensures Split(sp, isSpace) == []
    decreases |sp|
  {
    if sp != [] {
      SplitAllSpace(sp[1..], isSpace);
    }
  }

  /** Trailing whitespace does not change the words. */
  lemma {:induction false} SplitTrailingSpace(x: string, sp: string, isSpace: char -> bool)
    requires forall i :: 0 <= i < |sp| ==> isSpace(sp[i])
    ensures Split(x + sp, isSpace) == Split(x, isSpace)
    decreases |x|
  {
    if x == [] {
      assert x + sp == sp;
      SplitAllSpace(sp, isSpace);
    } else {
      var c, y := x[0], x[1..];
      assert x == [c] + y && x + sp == [c] + (y + sp);
      SplitTrailingSpace(y, sp, isSpace);
      if isSpace(c) {
        SplitSpace(c, y, isSpace);
        SplitSpace(c, y + sp, isSpace);
      } else {
        SplitCons(c, y, isSpace);
        SplitCons(c, y + sp, isSpace);
        if y == [] && sp != [] {
          assert (y + sp)[0] == sp[0];
        } else if y != [] {
          assert (y + sp)[0] == y[0];
        }
      }
    }
  }

  /** `strip` does not change the words. */
  lemma SplitStrip(t: string, isSpace: char -> bool)
    ensures Split(Strip(t, isSpace), isSpace) == Split(t, isSpace)
  {
    var l := StripLeft(t, isSpace);
    SplitStripLeft(t, isSpace);
    SplitStripRight(l, isSpace);
  }

  /** Trailing whitespace removed by `StripRight` held no word. */
  lemma SplitStripRight(l: string, isSpace: char -> bool)
    ensures Split(StripRight(l, isSpace), isSpace) == Split(l, isSpace)
  {
    var r := StripRight(l, isSpace);
    StripRightRemovesSpace(l, isSpace);
    var sp := l[|r|..];
    assert l == r + sp;
    forall i | 0 <= i < |sp| ensures isSpace(sp[i]) {
      assert sp[i] == l[|r| + i];
    }
    SplitTrailingSpace(r, sp, isSpace);
  }

  /** The non-whitespace characters of `s`, in order. */
  function NonSpace(s: string, isSpace: char -> bool): string
    decreases |s|
  {
    if s == [] then [] else (if isSpace(s[0]) then [] else [s[0]]) + NonSpace(s[1..], isSpace)
  }

  /** The words run together, without separators. */
  function Concat(ws: seq<string>): string
    decreases |ws|
  {
    if ws == [] then [] else ws[0] + Concat(ws[1..])
  }

  /** `split()` loses nothing but whitespace: its words, run together, are
      exactly the non-whitespace characters of `s`, in order. */
  lemma {:induction false} ConcatSplit(s: string, isSpace: char -> bool)
    ensures Concat(Split(s, isSpace)) == NonSpace(s, isSpace)
    decreases |s|
  {
    if s != [] {
      var c, x := s[0], s[1..];
      assert s == [c] + x;
      ConcatSplit(x, isSpace);
      if isSpace(c) {
        SplitSpace(c, x, isSpace);
      } else {
        SplitCons(c, x, isSpace);
        var ws := Split(x, isSpace);
        if x != [] && !isSpace(x[0]) {
          assert ws != [] && ws == [ws[0]] + ws[1..];
          calc {
            Concat(Split(s, isSpace));
            ([c] + ws[0]) + Concat(ws[1..]);
            [c] + (ws[0] + Concat(ws[1..]));
            [c] + Concat(ws);
          }
        } else {
          assert Concat([[c]] + ws) == [c] + Concat(ws) by {
            assert ([[c]] + ws)[1..] == ws;
          }
        }
      }
    }
  }

  /** Joining on the left: the first piece, a separator, then the rest joined. */
  lemma {:induction false} JoinCons(p: string, parts: seq<string>, sep: string)
    requires parts != []
    ensures Join([p] + parts, sep) == p + sep + Join(parts, sep)
    decreases |parts|
  {
    var all := [p] + parts;
    if |parts| == 1 {
      assert all[..1] == [p];
    } else {
      var init := parts[..|parts| - 1];
      assert all[..|all| - 1] == [p] + init;
      JoinCons(p, init, sep);
    }
  }

  /** Splitting words joined by single spaces gives the words back. */
  lemma {:induction false} SplitJoin(ws: seq<string>, isSpace: char -> bool)
    requires isSpace(' ')
    requires forall i :: 0 <= i < |ws| ==> IsWord(ws[i], isSpace)
    ensures Split(Join(ws, " "), isSpace) == ws
    decreases |ws|
  {
    if ws == [] {
    } else if |ws| == 1 {
      var w := ws[0];
      SplitWordThen(w, [], isSpace);
      assert w + [] == w;
    } else {
      var w, rest := ws[0], ws[1..];
      var j := Join(rest, " ");
      assert ws == [w] + rest;
      assert Join(ws, " ") == w + ([' '] + j) by {
        JoinCons(w, rest, " ");
        assert w + " " + j == w + ([' '] + j);
      }
      assert Split(w + ([' '] + j), isSpace) == [w] + Split(j, isSpace) by {
        SplitWordThen(w, [' '] + j, isSpace);
        SplitSpace(' ', j, isSpace);
      }
      SplitJoin(rest, isSpace);
    }
  }

  /** A word followed by whitespace (or nothing) splits into that word and
      then the words of what follows. */
  lemma SplitWordThen(w: string, rest: string, isSpace: char -> bool)
    requires IsWord(w, isSpace)
    requires rest == [] || isSpace(rest[0])
    ensures Split(w + rest, isSpace) == [w] + Split(rest, isSpace)
  {
    WordOf(w, rest, isSpace);
    assert (w + rest)[0] == w[0];
    assert (w + rest)[|w|..] == rest;
  }

  /** A word followed by whitespace (or nothing) is read as that word. */
  lemma WordOf(w: string, rest: string, isSpace: char -> bool)
    requires IsWord(w, isSpace)
    requires rest == [] || isSpace(rest[0])
    ensures WordAt(w + rest, isSpace) == w
  {
    var s := w + rest;
    assert s[0] == w[0];
    var v := WordAt(s, isSpace);
    WordAtStops(s, isSpace);
    assert forall i :: 0 <= i < |w| ==> s[i] == w[i];
    assert |w| < |s| ==> s[|w|] == rest[0];
    assert v == s[..|w|];
  }

  // ---------------------------------------------------------------------
  // Decimal digits (`format(n, "d")` for a non-negative `n`)
  // ---------------------------------------------------------------------

  function DigitChar(d: nat): char
    requires d < 10
  {
    "0123456789"[d]
  }

  function DigitValue(c: char): Option<nat> {
    if '0' <= c <= '9' then Some(c as int - '0' as int) else None
  }

  /** The shortest decimal spelling of `n`: "0" for zero, no leading zeros otherwise. */
  function Decimal(n: nat): (r: string)
    ensures |r| > 0
    decreases n
  {
    if n < 10 then [DigitChar(n)] else Decimal(n / 10) + [DigitChar(n % 10)]
  }

  /** Reads a non-empty run of ASCII digits; anything else is rejected. */
  function ParseDecimal(s: string): Option<nat>
    decreases |s|
  {
    if s == [] then None
    else
      match DigitValue(s[|s| - 1])
      case None => None
      case Some(d) =>
        if |s| == 1 then Some(d)
        else match ParseDecimal(s[..|s| - 1])
          case None => None
          case Some(h) => Some(10 * h + d)
  }

  /** Reading back the decimal spelling of `n` gives `n`. */
  lemma {:induction false} DecimalRoundTrip(n: nat)
    ensures ParseDecimal(Decimal(n)) == Some(n)
    ensures forall i :: 0 <= i < |Decimal(n)| ==> '0' <= Decimal(n)[i] <= '9'
    decreases n
  {
    if n >= 10 {
      DecimalRoundTrip(n / 10);
      var s := Decimal(n);
      assert s[..|s| - 1] == Decimal(n / 10);
    }
  }
}
