/** The shadowing page of SpeakStudio (main.py): the sentence catalog and
    its levels, the option labels of the sentence picker, the word diff
    shown after a recording, and the feedback lines chosen from the
    similarity score. */
module Shadowing {
  import opened Text

  // ---------------------------------------------------------------------
  // The catalog (`ShadowSentence`, `SENTENCES`, `levels`)
  // ---------------------------------------------------------------------

  /** A practice sentence: its id, the English text, a Japanese translation
      and a pronunciation hint. */
  datatype ShadowSentence = ShadowSentence(id: string, textEn: string, textJa: string, hint: string)

  const SentenceA1001: ShadowSentence := ShadowSentence(
    "A1-001",
    "Could you tell me how to get to the nearest station?",
    "最寄り駅への行き方を教えていただけますか？",
    "丁寧さを保ちつつ、語尾をはっきり。station の音に注意。")

  const SentenceA1002: ShadowSentence := ShadowSentence(
    "A1-002",
    "I started learning English to improve my work communication.",
    "仕事でのコミュニケーションを上達させるために英語の勉強を始めました。",
    "started と communication の発音をゆっくり確認。")

  const SentenceA2003: ShadowSentence := ShadowSentence(
    "A2-003",
    "Let me check my schedule and get back to you this afternoon.",
    "予定を確認して、今日の午後に折り返し連絡します。",
    "get back to you の連結と弱形、afternoon の第2音節を強めて。")

  const SentenceB1004: ShadowSentence := ShadowSentence(
    "B1-004",
    "If we streamline the process, we can reduce errors and save time.",
    "プロセスを合理化すれば、ミスを減らして時間を節約できます。",
    "streamline の長音を過度に強調しない。")

  const SentenceB2005: ShadowSentence := ShadowSentence(
    "B2-005",
    "With clearer goals and regular feedback, our team can maintain high motivation and keep improving.",
    "目標を明確にし定期的なフィードバックを行えば、チームは高いモチベーションを維持し続けられます。",
    "clearer と regular のリズムに注意。")

  const Sentences: seq<ShadowSentence> := [SentenceA1001, SentenceA1002, SentenceA2003, SentenceB1004, SentenceB2005]
  /** One entry of `levels`: the label shown in the level picker and the
      ids of the sentences offered at that level. */
  datatype Level = Level(name: string, ids: seq<string>)

  /** `levels`, in the order the picker lists them. */
  const Levels: seq<Level> := [
    Level("やさしい(A1–A2)", ["A1-001", "A1-002", "A2-003"]),
    Level("ふつう(B1)", ["B1-004"]),
    Level("むずかしい(B2)", ["B2-005"])]

  /** The ids of a list of sentences, in order. */
  function Ids(sentences: seq<ShadowSentence>): (ids: seq<string>)
    ensures |ids| == |sentences|
    ensures forall i :: 0 <= i < |sentences| ==> ids[i] == sentences[i].id
  {
    seq(|sentences|, i requires 0 <= i < |sentences| => sentences[i].id)
  }

  /** The ids the levels offer, level after level. */
  function LevelIds(levels: seq<Level>): seq<string>
    decreases |levels|
  {
    if levels == [] then [] else LevelIds(levels[..|levels| - 1]) + levels[|levels| - 1].ids
  }

  /** `{s.id: s for s in SENTENCES}`: each id maps to its sentence; when an
      id repeats, the later sentence replaces the earlier one. */
  function IdIndex(sentences: seq<ShadowSentence>): (m: map<string, ShadowSentence>)
    ensures forall i :: 0 <= i < |sentences| ==> sentences[i].id in m
    ensures forall k :: k in m ==> m[k].id == k
    decreases |sentences|
  {
    if sentences == [] then map[]
    else
      var last := sentences[|sentences| - 1];
      IdIndex(sentences[..|sentences| - 1])[last.id := last]
  }

  /** Every key of the index is the id of some sentence. */
  lemma {:induction false} IdIndexKeys(sentences: seq<ShadowSentence>, k: string)
    requires k in IdIndex(sentences)
    ensures exists i :: 0 <= i < |sentences| && sentences[i].id == k
    decreases |sentences|
  {
    var n := |sentences|;
    if sentences[n - 1].id != k {
      IdIndexKeys(sentences[..n - 1], k);
      var i :| 0 <= i < n - 1 && sentences[..n - 1][i].id == k;
      assert sentences[i].id == k;
    }
  }

  /** The index finds the last sentence carrying an id: a sentence whose id
      no later sentence repeats is the one its id maps to. */
  lemma {:induction false} IdIndexLastWins(sentences: seq<ShadowSentence>, i: int)
    requires 0 <= i < |sentences|
    requires forall j :: i < j < |sentences| ==> sentences[j].id != sentences[i].id
    ensures IdIndex(sentences)[sentences[i].id] == sentences[i]
    decreases |sentences|
  {
    var n := |sentences|;
    if i < n - 1 {
      var init := sentences[..n - 1];
      assert init[i] == sentences[i];
      forall j | i < j < |init| ensures init[j].id != init[i].id {
        assert init[j] == sentences[j];
      }
      IdIndexLastWins(init, i);
    }
  }

  predicate DistinctIds(sentences: seq<ShadowSentence>) {
    forall i, j :: 0 <= i < j < |sentences| ==> sentences[i].id != sentences[j].id
  }

  /** With distinct ids the index is exactly the catalog, keyed by id. */
  lemma IdIndexDistinct(sentences: seq<ShadowSentence>)
    requires DistinctIds(sentences)
    ensures forall i :: 0 <= i < |sentences| ==> IdIndex(sentences)[sentences[i].id] == sentences[i]
    ensures forall k :: k in IdIndex(sentences) ==> exists i :: 0 <= i < |sentences| && sentences[i].id == k
  {
    forall i | 0 <= i < |sentences| ensures IdIndex(sentences)[sentences[i].id] == sentences[i] {
      IdIndexLastWins(sentences, i);
    }
    forall k | k in IdIndex(sentences) ensures exists i :: 0 <= i < |sentences| && sentences[i].id == k {
      IdIndexKeys(sentences, k);
    }
  }

  /** The catalog and the levels agree: the ids are distinct, the levels
      offer every sentence exactly once, in catalog order, and so every id a
      level offers is found by `id_to_sent[sel_id]`. */
  lemma CatalogConsistent()
    ensures DistinctIds(Sentences)
    ensures LevelIds(Levels) == Ids(Sentences)
    ensures forall l, k :: l in Levels && k in l.ids ==> k in IdIndex(Sentences)
  {
    var ids := CatalogIds();
    forall i | 0 <= i < 5 ensures ids[i] in IdIndex(Sentences) {
      assert Sentences[i].id == ids[i];
    }
    forall l, k | l in Levels && k in l.ids ensures k in IdIndex(Sentences) {
      assert k in LevelIds(Levels);
      var i :| 0 <= i < 5 && ids[i] == k;
    }
  }

  /** The catalog's five ids, as the sentences list them and as the levels
      offer them. */
  lemma CatalogIds() returns (ids: seq<string>)
    ensures ids == ["A1-001", "A1-002", "A2-003", "B1-004", "B2-005"]
    ensures Ids(Sentences) == ids && LevelIds(Levels) == ids
  {
    ids := ["A1-001", "A1-002", "A2-003", "B1-004", "B2-005"];
    assert Levels[..2][..1] == Levels[..1] && Levels[..1][..0] == [];
    assert LevelIds(Levels[..1]) == Levels[0].ids;
    assert LevelIds(Levels[..2]) == Levels[0].ids + Levels[1].ids;
    assert Levels[..3] == Levels;
    assert Ids(Sentences) == ids;
  }

  // ---------------------------------------------------------------------
  // Option labels (`format_sentence_option`)
  // ---------------------------------------------------------------------

  /** How many characters of a sentence the picker shows. */
  const PreviewWidth: nat := 60

  const Ellipsis: string := "..."

  /** `s[:60] + ("..." if len(s) > 60 else "")`: a sentence of at most 60
      characters is shown whole; a longer one is cut to its first 60
      characters followed by "...". */
  function Preview(s: string): (r: string)
    ensures |r| <= PreviewWidth + |Ellipsis|
    ensures |s| <= PreviewWidth ==> r == s
    ensures |s| > PreviewWidth ==>
      |r| == PreviewWidth + |Ellipsis| && IsPrefix(r[..PreviewWidth], s) && r[PreviewWidth..] == Ellipsis
  {
    if |s| > PreviewWidth then s[..PreviewWidth] + Ellipsis else s
  }

  /** The label of a sentence in the picker: its id, " : " and the preview
      of its English text. The id must be in the index (the source raises
      `KeyError` otherwise). */
  function FormatSentenceOption(sid: string, index: map<string, ShadowSentence>): (r: string)
    requires sid in index
    ensures IsPrefix(sid + " : ", r)
    ensures |r| <= |sid| + 3 + PreviewWidth + |Ellipsis|
    ensures |index[sid].textEn| <= PreviewWidth ==> r == sid + " : " + index[sid].textEn
    ensures |index[sid].textEn| > PreviewWidth ==>
      r == sid + " : " + index[sid].textEn[..PreviewWidth] + Ellipsis
  {
    sid + " : " + Preview(index[sid].textEn)
  }

  /** In the catalog, the three easy sentences (two of them exactly 60
      characters long) are shown whole, and the two harder ones are cut. */
  lemma CatalogOptionLabels()
    ensures forall i :: 0 <= i < 3 ==>
      Sentences[i].id in IdIndex(Sentences) && FormatSentenceOption(Sentences[i].id, IdIndex(Sentences)) == Sentences[i].id + " : " + Sentences[i].textEn
    ensures forall i :: 3 <= i < 5 ==>
      Sentences[i].id in IdIndex(Sentences)
      && FormatSentenceOption(Sentences[i].id, IdIndex(Sentences))
         == Sentences[i].id + " : " + Sentences[i].textEn[..PreviewWidth] + Ellipsis
  {
    CatalogConsistent();
    IdIndexDistinct(Sentences);
    assert |SentenceA1001.textEn| == 52 && |SentenceA1002.textEn| == 60 && |SentenceA2003.textEn| == 60;
    assert |SentenceB1004.textEn| == 65 && |SentenceB2005.textEn| == 98;
  }

  // ---------------------------------------------------------------------
  // The word diff (`diff_html`)
  // ---------------------------------------------------------------------

  const DelOpen: string := "<span class='del'>"
  const AddOpen: string := "<span class='add'>"
  const SpanClose: string := "</span>"

  /** `token[2:]`: the word after the two-character diff code ("" for a
      token shorter than that). */
  function Word(token: string): (w: string)
    ensures |token| >= 2 ==> token == token[..2] + w
  {
    if |token| >= 2 then token[2..] else ""
  }

  /** What one `ndiff` line adds to the output: a removed word in a "del"
      span, an added word in an "add" span, nothing for a "? " hint line,
      and the bare word for any other line. */
  function RenderToken(token: string): (r: Option<string>)
    ensures r.None? <==> IsPrefix("? ", token)
    ensures r.Some? ==> IsInfix(Word(token), r.value)
  {
    if IsPrefix("- ", token) then
      MiddleOf(DelOpen, Word(token), SpanClose);
      InfixAt(Word(token), DelOpen + Word(token) + SpanClose, |DelOpen|);
      Some(DelOpen + Word(token) + SpanClose)
    else if IsPrefix("+ ", token) then
      MiddleOf(AddOpen, Word(token), SpanClose);
      InfixAt(Word(token), AddOpen + Word(token) + SpanClose, |AddOpen|);
      Some(AddOpen + Word(token) + SpanClose)
    else if IsPrefix("? ", token) then None
    else
      MiddleOf([], Word(token), []);
      assert [] + Word(token) + [] == Word(token);
      InfixAt(Word(token), Word(token), 0);
      Some(Word(token))
  }

  /** The list `out` after the loop over the diff lines. */
  function Rendered(tokens: seq<string>): (r: seq<string>)
    ensures |r| <= |tokens|
    decreases |tokens|
  {
    if tokens == [] then []
    else
      var r := RenderToken(tokens[|tokens| - 1]);
      Rendered(tokens[..|tokens| - 1]) + (if r.Some? then [r.value] else [])
  }

  /** `diff_html`: split both texts into words, compare them with the
      line differ (a parameter: `difflib.ndiff`), render each line and join
      the pieces with single spaces. */
  method DiffHtml(reference: string, hypothesis: string, isSpace: char -> bool,
                  ndiff: (seq<string>, seq<string>) -> seq<string>)
    returns (html: string)
    ensures html == Join(Rendered(ndiff(Split(reference, isSpace), Split(hypothesis, isSpace))), " ")
  {
    var tokens := ndiff(Split(reference, isSpace), Split(hypothesis, isSpace));
    var out: seq<string> := [];
    for i := 0 to |tokens|
      invariant out == Rendered(tokens[..i])
    {
      assert tokens[..i + 1][..i] == tokens[..i];
      var token := tokens[i];
      if IsPrefix("- ", token) {
        out := out + [DelOpen + Word(token) + SpanClose];
      } else if IsPrefix("+ ", token) {
        out := out + [AddOpen + Word(token) + SpanClose];
      } else if IsPrefix("? ", token) {
      } else {
        out := out + [Word(token)];
      }
    }
    assert tokens[..|tokens|] == tokens;
    html := Join(out, " ");
  }

  /** The pieces come out line by line, in diff order. */
  lemma {:induction false} RenderedAppend(a: seq<string>, b: seq<string>)
    ensures Rendered(a + b) == Rendered(a) + Rendered(b)
    decreases |b|
  {
    if b == [] {
      assert a + b == a;
    } else {
      assert (a + b)[..|a + b| - 1] == a + b[..|b| - 1];
      RenderedAppend(a, b[..|b| - 1]);
    }
  }

  /** The number of diff lines that are not "? " hint lines. */
  function Shown(tokens: seq<string>): nat
    decreases |tokens|
  {
    if tokens == [] then 0
    else Shown(tokens[..|tokens| - 1]) + (if IsPrefix("? ", tokens[|tokens| - 1]) then 0 else 1)
  }

  /** Every diff line except the "? " hint lines gives exactly one piece. */
  lemma {:induction false} RenderedCount(tokens: seq<string>)
    ensures |Rendered(tokens)| == Shown(tokens)
    decreases |tokens|
  {
    if tokens != [] {
      RenderedCount(tokens[..|tokens| - 1]);
    }
  }

  /** A "? " hint line leaves the output unchanged wherever it occurs. */
  lemma HintLineIgnored(a: seq<string>, hint: string, b: seq<string>)
    requires IsPrefix("? ", hint)
    ensures Rendered(a + [hint] + b) == Rendered(a + b)
  {
    assert Rendered([hint]) == [] by {
      assert [hint][..0] == [];
    }
    RenderedAppend(a + [hint], b);
    RenderedAppend(a, [hint]);
    RenderedAppend(a, b);
    assert Rendered(a + [hint]) == Rendered(a);
  }

  /** The diff lines `ndiff` gives for a word both texts share. */
  function KeepTokens(ws: seq<string>): (tokens: seq<string>)
    ensures |tokens| == |ws|
    ensures forall i :: 0 <= i < |ws| ==> tokens[i] == "  " + ws[i]
  {
    seq(|ws|, i requires 0 <= i < |ws| => "  " + ws[i])
  }

  /** A line for a shared word renders as the bare word. */
  lemma KeepToken(w: string)
    ensures RenderToken("  " + w) == Some(w)
  {
    var t := "  " + w;
    assert t[0] == ' ' && t[1] == ' ' && t[2..] == w;
  }

  /** When every word is shared, nothing is marked: the pieces are the
      words themselves. */
  lemma {:induction false} SharedWordsRendered(ws: seq<string>)
    ensures Rendered(KeepTokens(ws)) == ws
    decreases |ws|
  {
    if ws != [] {
      var n := |ws|;
      var init := ws[..n - 1];
      SharedWordsRendered(init);
      assert KeepTokens(ws)[..n - 1] == KeepTokens(init);
      KeepToken(ws[n - 1]);
      assert ws == init + [ws[n - 1]];
    }
  }

  /** ... so the output is the words joined by single spaces, and splitting
      it gives the words back. */
  lemma SharedWordsUnmarked(ws: seq<string>, isSpace: char -> bool)
    requires isSpace(' ')
    requires forall i :: 0 <= i < |ws| ==> IsWord(ws[i], isSpace)
    ensures Join(Rendered(KeepTokens(ws)), " ") == Join(ws, " ")
    ensures Split(Join(Rendered(KeepTokens(ws)), " "), isSpace) == ws
  {
    SharedWordsRendered(ws);
    SplitJoin(ws, isSpace);
  }

  /** A removed word is shown struck out, an added word highlighted. */
  lemma ChangedWordsMarked(w: string)
    ensures Rendered(["- " + w]) == [DelOpen + w + SpanClose]
    ensures Rendered(["+ " + w]) == [AddOpen + w + SpanClose]
  {
    assert ["- " + w][..0] == [] && ["+ " + w][..0] == [];
    assert IsPrefix("- ", "- " + w) && Word("- " + w) == w;
    assert IsPrefix("+ ", "+ " + w) && Word("+ " + w) == w;
    assert !IsPrefix("- ", "+ " + w);
  }

  // ---------------------------------------------------------------------
  // Feedback (the block that fills `fb`)
  // ---------------------------------------------------------------------

  /** The three score bands. */
  datatype Tier = Practice | Refine | Natural

  /** `score < 0.5`, `score < 0.75`, otherwise. */
  function TierOf(score: real): (t: Tier)
    ensures t == Practice <==> score < 0.5
    ensures t == Natural <==> score >= 0.75
  {
    if score < 0.5 then Practice else if score < 0.75 then Refine else Natural
  }

  function TierRank(t: Tier): nat {
    match t
    case Practice => 0
    case Refine => 1
    case Natural => 2
  }

  /** A higher score never gets a lower band. */
  lemma TierMonotone(s1: real, s2: real)
    requires s1 <= s2
    ensures TierRank(TierOf(s1)) <= TierRank(TierOf(s2))
  {
  }

  /** The band message; every band has one. */
  function TierMessage(t: Tier): (r: string)
    ensures r != ""
  {
    match t
    case Practice => "まずはゆっくり・正確に。短い区切りで練習しましょう。"
    case Refine => "主要語の発音と抑揚を意識。機能語は弱く短く。"
    case Natural => "良い感じ！ 連結やリズムをさらに自然に。"
  }

  /** The three bands have three different messages. */
  lemma TierMessagesDistinct()
    ensures TierMessage(Practice) != TierMessage(Refine)
    ensures TierMessage(Practice) != TierMessage(Natural)
    ensures TierMessage(Refine) != TierMessage(Natural)
  {
    assert TierMessage(Practice)[0] != TierMessage(Refine)[0];
    assert TierMessage(Refine)[0] != TierMessage(Natural)[0];
    assert TierMessage(Practice)[0] != TierMessage(Natural)[0];
  }

  /** The words whose presence adds the weak-form tip. */
  const FunctionWords: seq<string> := ["the", "to", "and", "of", "can", "you"]

  const FunctionWordTip: string := "the/to/and/of などは弱く短く、内容語は強く長く。"

  /** Whether some word of `ws` occurs in `s` as a substring (not
      necessarily as a whole word), trying the words in order. */
  function AnyInfix(ws: seq<string>, s: string): (b: bool)
    ensures b <==> exists i :: 0 <= i < |ws| && IsInfix(ws[i], s)
    decreases |ws|
  {
    if ws == [] then false
    else
      var b := IsInfix(ws[0], s) || AnyInfix(ws[1..], s);
      assert forall i :: 1 <= i < |ws| ==> ws[i] == ws[1..][i - 1];
      b
  }

  /** The feedback lines for a score and the lower-cased reference text:
      the band message, then the tip when a function word occurs. */
  function FeedbackLines(score: real, lowered: string): (fb: seq<string>)
    ensures 1 <= |fb| <= 2 && fb[0] == TierMessage(TierOf(score))
    ensures |fb| == 2 <==> exists i :: 0 <= i < |FunctionWords| && IsInfix(FunctionWords[i], lowered)
    ensures |fb| == 2 ==> fb[1] == FunctionWordTip
  {
    [TierMessage(TierOf(score))] + (if AnyInfix(FunctionWords, lowered) then [FunctionWordTip] else [])
  }

  /** The feedback block: the band message, then `any(...)` over the
      function words, stopping at the first that occurs. `lower` is
      `str.lower`. */
  method Feedback(score: real, reference: string, lower: string -> string) returns (fb: seq<string>)
    ensures fb == FeedbackLines(score, lower(reference))
  {
    fb := [];
    if score < 0.5 {
      fb := fb + [TierMessage(Practice)];
    } else if score < 0.75 {
      fb := fb + [TierMessage(Refine)];
    } else {
      fb := fb + [TierMessage(Natural)];
    }
    var lowered := lower(reference);
    var found := false;
    var i := 0;
    while i < |FunctionWords|
      invariant 0 <= i <= |FunctionWords|
      invariant !found ==> forall j :: 0 <= j < i ==> !IsInfix(FunctionWords[j], lowered)
      invariant found ==> AnyInfix(FunctionWords, lowered)
    {
      if IsInfix(FunctionWords[i], lowered) {
        found := true;
        assert AnyInfix(FunctionWords, lowered);
        break;
      }
      i := i + 1;
    }
    if found {
      fb := fb + [FunctionWordTip];
    }
  }

  /** The test is on substrings: "there" gets the tip through "the", while
      a text without any of the six letter groups gets only the band
      message. */
  lemma FunctionWordSubstring(score: real)
    ensures |FeedbackLines(score, "there")| == 2
    ensures |FeedbackLines(score, "yes")| == 1
  {
    assert IsPrefix("the", "there");
    assert IsInfix(FunctionWords[0], "there");
    forall i | 0 <= i < |FunctionWords| ensures !IsInfix(FunctionWords[i], "yes") {
      var w := FunctionWords[i];
      assert "yes"[1..] == "es" && "es"[1..] == "s";
      assert w[0] != 'e' && (w[0] != 'y' || w[1] != 'e');
      assert !IsInfix(w, "s");
      assert !IsPrefix(w, "es");
      assert !IsPrefix(w, "yes");
    }
  }
}
