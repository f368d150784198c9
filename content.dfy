/** Flattening of an LLM message content into plain text (functions.py
    `_content_to_text`): a string is returned as it is; a list of parts
    contributes the "text" of each dict part, empty texts are dropped, the
    rest are joined with newlines and the result is stripped. */
module Content {
  import opened Text

  /** A Python value as the flattener sees it: `None`, a `str`, or any other
      object, whose `str()` either renders it or raises. */
  datatype PyValue = PyNone | PyStr(s: string) | PyOther(rendered: Option<string>)

  /** An element of a content list: a dict, of which only `part.get("text")`
      matters (a missing key reads as `None`), or anything that is not a dict. */
  datatype Part = DictPart(text: PyValue) | NonDictPart

  /** A message content: a `str`, a list of parts, or any other object. */
  datatype MessageContent =
    | StrContent(s: string)
    | ListContent(parts: seq<Part>)
    | OtherContent(rendered: Option<string>)

  /** What one part appends to `texts`: its text when that is a `str`; ""
      for `None`; the rendering of any other value, or nothing when `str()`
      raises; nothing for a part that is not a dict. Only a dict part
      contributes, and only a value whose `str()` raises is skipped. */
  function PartText(p: Part): (r: Option<string>)
    ensures r.Some? ==> p.DictPart?
    ensures r.None? <==> p.NonDictPart? || p.text == PyOther(None)
  {
    match p
    case NonDictPart => None
    case DictPart(PyStr(t)) => Some(t)
    case DictPart(PyNone) => Some("")
    case DictPart(PyOther(r)) => r
  }

  /** The list `texts` after the loop over `parts`. */
  function PartTexts(parts: seq<Part>): seq<string>
    decreases |parts|
  {
    if parts == [] then []
    else
      var last := PartText(parts[|parts| - 1]);
      PartTexts(parts[..|parts| - 1]) + (if last.Some? then [last.value] else [])
  }

  /** `[t for t in texts if t]`. */
  function NonEmpty(texts: seq<string>): (r: seq<string>)
    ensures forall i :: 0 <= i < |r| ==> r[i] != ""
    decreases |texts|
  {
    if texts == [] then []
    else NonEmpty(texts[..|texts| - 1]) + (if texts[|texts| - 1] != "" then [texts[|texts| - 1]] else [])
  }

  /** The flattened text of a content; `isSpace` is Python's whitespace class,
      which `strip` uses. A string comes back unchanged, not even stripped;
      the flattened text of a list never starts or ends with whitespace. */
  function ContentText(content: MessageContent, isSpace: char -> bool): (r: string)
    ensures content.StrContent? ==> r == content.s
    ensures content.ListContent? ==> r == [] || (!isSpace(r[0]) && !isSpace(r[|r| - 1]))
  {
    match content
    case StrContent(s) => s
    case ListContent(parts) => Strip(Join(NonEmpty(PartTexts(parts)), "\n"), isSpace)
    case OtherContent(rendered) => if rendered.Some? then rendered.value else ""
  }

  /** `_content_to_text`, with the loop that fills `texts`. */
  method ContentToText(content: MessageContent, isSpace: char -> bool) returns (r: string)
    ensures r == ContentText(content, isSpace)
  {
    match content {
      case StrContent(s) =>
        return s;
      case ListContent(parts) =>
        var texts: seq<string> := [];
        var i := 0;
        while i < |parts|
          invariant 0 <= i <= |parts|
          invariant texts == PartTexts(parts[..i])
        {
          var part := parts[i];
          assert parts[..i + 1][..i] == parts[..i];
          match part {
            case DictPart(t) =>
              match t {
                case PyStr(s) => texts := texts + [s];
                case PyNone => texts := texts + [""];
                case PyOther(rendered) =>
                  if rendered.Some? {
                    texts := texts + [rendered.value];
                  }
              }
            case NonDictPart =>
          }
          i := i + 1;
        }
        assert parts[..|parts|] == parts;
        r := Strip(Join(NonEmpty(texts), "\n"), isSpace);
      case OtherContent(rendered) =>
        r := if rendered.Some? then rendered.value else "";
    }
  }

  /** The texts are collected part by part, in list order. */
  lemma {:induction false} PartTextsAppend(a: seq<Part>, b: seq<Part>)
    ensures PartTexts(a + b) == PartTexts(a) + PartTexts(b)
    decreases |b|
  {
    if b == [] {
      assert a + b == a;
    } else {
      assert (a + b)[..|a + b| - 1] == a + b[..|b| - 1];
      PartTextsAppend(a, b[..|b| - 1]);
    }
  }

  /** Dropping empty texts keeps the others in order. */
  lemma {:induction false} NonEmptyAppend(a: seq<string>, b: seq<string>)
    ensures NonEmpty(a + b) == NonEmpty(a) + NonEmpty(b)
    decreases |b|
  {
    if b == [] {
      assert a + b == a;
    } else {
      assert (a + b)[..|a + b| - 1] == a + b[..|b| - 1];
      NonEmptyAppend(a, b[..|b| - 1]);
    }
  }

  /** A part that is not a dict, a dict without text (or with a `None` or
      empty text) and a dict whose text cannot be rendered contribute
      nothing: removing such a part leaves the flattened text unchanged. */
  lemma SilentPartIgnored(a: seq<Part>, p: Part, b: seq<Part>, isSpace: char -> bool)
    requires PartText(p) == None || PartText(p) == Some("")
    ensures ContentText(ListContent(a + [p] + b), isSpace) == ContentText(ListContent(a + b), isSpace)
  {
    SilentPartTexts(a, p, b);
  }

  lemma SilentPartTexts(a: seq<Part>, p: Part, b: seq<Part>)
    requires PartText(p) == None || PartText(p) == Some("")
    ensures NonEmpty(PartTexts(a + [p] + b)) == NonEmpty(PartTexts(a + b))
  {
    var x, y, z := PartTexts(a), PartTexts([p]), PartTexts(b);
    assert NonEmpty(y) == [] by {
      assert [p][..0] == [] && [p][0] == p;
      assert y == PartTexts([]) + (if PartText(p).Some? then [PartText(p).value] else []);
      if y != [] { assert y == [""] && y[..0] == []; }
    }
    calc {
      NonEmpty(PartTexts(a + [p] + b));
      { PartTextsAppend(a + [p], b); PartTextsAppend(a, [p]); }
      NonEmpty(x + y + z);
      { NonEmptyAppend(x + y, z); NonEmptyAppend(x, y); }
      NonEmpty(x) + NonEmpty(y) + NonEmpty(z);
      { NonEmptyAppend(x, z); }
      NonEmpty(x + z);
      { PartTextsAppend(a, b); }
      NonEmpty(PartTexts(a + b));
    }
  }

  /** A list in which no part has a non-empty text flattens to "". */
  lemma NoTextGivesEmpty(parts: seq<Part>, isSpace: char -> bool)
    requires forall i :: 0 <= i < |parts| ==> PartText(parts[i]) == None || PartText(parts[i]) == Some("")
    ensures NonEmpty(PartTexts(parts)) == []
    ensures ContentText(ListContent(parts), isSpace) == ""
  {
    NoTextNoPieces(parts);
    assert Join([], "\n") == "";
    assert Strip("", isSpace) == "";
  }

  /** Without any non-empty text nothing survives the filter. */
  lemma {:induction false} NoTextNoPieces(parts: seq<Part>)
    requires forall i :: 0 <= i < |parts| ==> PartText(parts[i]) == None || PartText(parts[i]) == Some("")
    ensures NonEmpty(PartTexts(parts)) == []
    decreases |parts|
  {
    if parts != [] {
      var init := parts[..|parts| - 1];
      NoTextNoPieces(init);
      assert parts == init + [parts[|parts| - 1]] + [];
      assert init + [] == init;
      SilentPartTexts(init, parts[|parts| - 1], []);
    }
  }

  /** A list of dict parts carrying the given texts. */
  function TextParts(ts: seq<string>): (parts: seq<Part>)
    ensures |parts| == |ts|
    ensures forall i :: 0 <= i < |ts| ==> parts[i] == DictPart(PyStr(ts[i]))
  {
    seq(|ts|, i requires 0 <= i < |ts| => DictPart(PyStr(ts[i])))
  }

  /** When every part carries a non-empty text, the flattened text is those
      texts, in list order, joined by single newlines and then stripped. */
  lemma TextPartsJoined(ts: seq<string>, isSpace: char -> bool)
    requires forall i :: 0 <= i < |ts| ==> ts[i] != ""
    ensures ContentText(ListContent(TextParts(ts)), isSpace) == Strip(Join(ts, "\n"), isSpace)
  {
    TextPartsCollected(ts);
  }

  lemma {:induction false} TextPartsCollected(ts: seq<string>)
    requires forall i :: 0 <= i < |ts| ==> ts[i] != ""
    ensures NonEmpty(PartTexts(TextParts(ts))) == ts
    decreases |ts|
  {
    if ts != [] {
      var init := ts[..|ts| - 1];
      TextPartsCollected(init);
      assert TextParts(ts)[..|ts| - 1] == TextParts(init);
      assert PartTexts(TextParts(ts)) == PartTexts(TextParts(init)) + [ts[|ts| - 1]];
      var x := PartTexts(TextParts(init));
      assert (x + [ts[|ts| - 1]])[..|x|] == x;
      assert ts == init + [ts[|ts| - 1]];
    }
  }
}
