/** The language table, the answer modes and the role prompts of SpeakStudio
    (constants.py), with the language lookup that falls back to the default
    language (functions.py `get_lang_conf`, and the same lookup inside
    `system_prompt_for`). */
module Constants {
  import opened Text

  /** One entry of `LANGS`: the UI label, the speech-recognition locale, the
      gTTS language, the language name used in prompts and the Edge-TTS voices. */
  datatype LangConf = LangConf(
    displayLabel: string,
    stt: string,
    tts: string,
    promptName: string,
    edgeVoices: seq<string>)

  const AnswerModeDaily: string := "daily_chat"
  const AnswerModeShadowing: string := "shadowing"
  const AnswerModeRoleplay: string := "roleplay"

  const English: LangConf := LangConf(
    "英語", "en-US", "en", "English", ["en-US-JennyNeural", "en-US-GuyNeural"])

  const Korean: LangConf := LangConf(
    "韓国語", "ko-KR", "ko", "Korean", ["ko-KR-SunHiNeural", "ko-KR-HyunsuNeural"])

  /** `LANGS`: the supported languages, keyed by language code. */
  const Langs: map<string, LangConf> := map["en" := English, "ko" := Korean]

  /** `DEFAULT_LANG`: Korean practice is the default. */
  const DefaultLang: string := "ko"

  /** `LANGS.get(code, LANGS[DEFAULT_LANG])`: a known code gives its own entry,
      any other code gives the default language's entry, and whichever entry
      is returned names at least one Edge voice. */
  function LangConfFor(code: string): (c: LangConf)
    ensures code in Langs ==> c == Langs[code]
    ensures code !in Langs ==> c == Langs[DefaultLang] && c.promptName == "Korean"
    ensures |c.edgeVoices| > 0 && forall i :: 0 <= i < |c.edgeVoices| ==> c.edgeVoices[i] != ""
  {
    if code in Langs then Langs[code] else Langs[DefaultLang]
  }

  // The fixed parts of the three role prompts, around the language name.
  const DailyLead: string := "You are a friendly "
  const DailyMid: string := " conversation partner for " + "a Japanese learner" + ". Respond only in "
  const DailyTail: string := ", keep it short and natural."
  const RoleplayLead: string := "You are a "
  const RoleplayMid: string := " roleplay partner. Reply only in "
  const RoleplayTail: string := ", short and natural."
  const TutorLead: string := "You are a helpful "
  const TutorTail: string := " tutor."

  function DailyPrompt(name: string): string { DailyLead + name + DailyMid + name + DailyTail }
  function RoleplayPrompt(name: string): string { RoleplayLead + name + RoleplayMid + name + RoleplayTail }
  function TutorPrompt(name: string): string { TutorLead + name + TutorTail }

  /** `system_prompt_for`: the role prompt for an answer mode and a
      language; every prompt names the language it is for. */
  function SystemPromptFor(mode: string, code: string): (r: string)
    ensures IsInfix(LangConfFor(code).promptName, r)
  {
    var name := LangConfFor(code).promptName;
    if mode == AnswerModeDaily then
      DailyPromptShape(name);
      InfixAt(name, DailyPrompt(name), |DailyLead|);
      DailyPrompt(name)
    else if mode == AnswerModeRoleplay then
      RoleplayPromptShape(name);
      InfixAt(name, RoleplayPrompt(name), |RoleplayLead|);
      RoleplayPrompt(name)
    else
      MiddleOf(TutorLead, name, TutorTail);
      InfixAt(name, TutorPrompt(name), |TutorLead|);
      TutorPrompt(name)
  }

  /** The daily prompt names the language twice, at two different places,
      and addresses a Japanese learner. */
  lemma DailyPromptShape(name: string)
    ensures OccursAt(name, DailyPrompt(name), |DailyLead|)
    ensures OccursAt(name, DailyPrompt(name), |DailyLead| + |name| + |DailyMid|)
    ensures IsInfix("a Japanese learner", DailyPrompt(name))
  {
    PlacedTwice(DailyLead, name, DailyMid, DailyTail);
    DailyMentionsLearner(name);
  }

  lemma DailyMentionsLearner(name: string)
    ensures IsInfix("a Japanese learner", DailyPrompt(name))
  {
    var learner, before := "a Japanese learner", " conversation partner for ";
    MiddleOf(before, learner, ". Respond only in ");
    MiddleOf(DailyLead + name, DailyMid, name + DailyTail);
    assert DailyPrompt(name) == DailyLead + name + DailyMid + (name + DailyTail);
    OccursWithin(learner, DailyMid, DailyPrompt(name), |before|, |DailyLead| + |name|);
    InfixAt(learner, DailyPrompt(name), |DailyLead| + |name| + |before|);
  }

  /** The roleplay prompt names the language twice. */
  lemma RoleplayPromptShape(name: string)
    ensures OccursAt(name, RoleplayPrompt(name), |RoleplayLead|)
    ensures OccursAt(name, RoleplayPrompt(name), |RoleplayLead| + |name| + |RoleplayMid|)
  {
    PlacedTwice(RoleplayLead, name, RoleplayMid, RoleplayTail);
  }

  /** An unknown language code gets exactly the prompt of the default
      language, Korean. */
  lemma SystemPromptUnknownLanguage(mode: string, code: string)
    requires code !in Langs
    ensures SystemPromptFor(mode, code) == SystemPromptFor(mode, DefaultLang)
    ensures IsInfix("Korean", SystemPromptFor(mode, code))
  {
  }

  /** In daily chat and roleplay the prompt names the language twice, and
      the daily prompt addresses a Japanese learner. */
  lemma SystemPromptNamesLanguage(mode: string, code: string)
    ensures mode == AnswerModeDaily ==>
      var name, p := LangConfFor(code).promptName, SystemPromptFor(mode, code);
      OccursAt(name, p, |DailyLead|) && OccursAt(name, p, |DailyLead| + |name| + |DailyMid|)
      && IsInfix("a Japanese learner", p)
    ensures mode == AnswerModeRoleplay ==>
      var name, p := LangConfFor(code).promptName, SystemPromptFor(mode, code);
      OccursAt(name, p, |RoleplayLead|) && OccursAt(name, p, |RoleplayLead| + |name| + |RoleplayMid|)
  {
    var name := LangConfFor(code).promptName;
    if mode == AnswerModeDaily {
      DailyPromptShape(name);
    } else if mode == AnswerModeRoleplay {
      RoleplayPromptShape(name);
    }
  }

  /** Shadowing has no prompt of its own: it, and every mode other than
      daily chat and roleplay, gets the generic tutor prompt. */
  lemma SystemPromptOtherModes(mode: string, code: string)
    requires mode != AnswerModeDaily && mode != AnswerModeRoleplay
    ensures SystemPromptFor(mode, code) == SystemPromptFor(AnswerModeShadowing, code)
    ensures SystemPromptFor(mode, code) == TutorLead + LangConfFor(code).promptName + TutorTail
  {
  }

  /** The three modes give three different prompts for the same language, and
      the two supported languages give different prompts in every mode. */
  lemma SystemPromptsDistinct(mode: string, code: string)
    ensures SystemPromptFor(AnswerModeDaily, code) != SystemPromptFor(AnswerModeRoleplay, code)
    ensures SystemPromptFor(AnswerModeDaily, code) != SystemPromptFor(AnswerModeShadowing, code)
    ensures SystemPromptFor(AnswerModeRoleplay, code) != SystemPromptFor(AnswerModeShadowing, code)
    ensures SystemPromptFor(mode, "en") != SystemPromptFor(mode, "ko")
  {
    var name := LangConfFor(code).promptName;
    assert name[0] != 'f' && name[0] != 'h';
    ModePromptsDiffer(name);
    NamePromptsDiffer(English.promptName, Korean.promptName);
  }

  /** For a name that starts with neither 'f' nor 'h', the three prompts
      differ at the position just after the roleplay lead. */
  lemma ModePromptsDiffer(name: string)
    requires name != [] && name[0] != 'f' && name[0] != 'h'
    ensures DailyPrompt(name) != RoleplayPrompt(name)
    ensures DailyPrompt(name) != TutorPrompt(name)
    ensures RoleplayPrompt(name) != TutorPrompt(name)
  {
    var k := |RoleplayLead|;
    assert DailyLead[k] == 'f' && TutorLead[k] == 'h';
    PromptCharAt(DailyLead, name, DailyMid + name + DailyTail, k);
    PromptCharAt(TutorLead, name, TutorTail, k);
    PromptCharAt(RoleplayLead, name, RoleplayMid + name + RoleplayTail, k);
    assert DailyPrompt(name) == DailyLead + name + (DailyMid + name + DailyTail);
    assert RoleplayPrompt(name) == RoleplayLead + name + (RoleplayMid + name + RoleplayTail);
  }

  /** Names with different first characters give different prompts, in each
      of the three forms. */
  lemma NamePromptsDiffer(e: string, o: string)
    requires e != [] && o != [] && e[0] != o[0]
    ensures DailyPrompt(e) != DailyPrompt(o)
    ensures RoleplayPrompt(e) != RoleplayPrompt(o)
    ensures TutorPrompt(e) != TutorPrompt(o)
  {
    PromptCharAt(DailyLead, e, DailyMid + e + DailyTail, |DailyLead|);
    PromptCharAt(DailyLead, o, DailyMid + o + DailyTail, |DailyLead|);
    assert DailyPrompt(e) == DailyLead + e + (DailyMid + e + DailyTail);
    assert DailyPrompt(o) == DailyLead + o + (DailyMid + o + DailyTail);
    PromptCharAt(RoleplayLead, e, RoleplayMid + e + RoleplayTail, |RoleplayLead|);
    PromptCharAt(RoleplayLead, o, RoleplayMid + o + RoleplayTail, |RoleplayLead|);
    assert RoleplayPrompt(e) == RoleplayLead + e + (RoleplayMid + e + RoleplayTail);
    assert RoleplayPrompt(o) == RoleplayLead + o + (RoleplayMid + o + RoleplayTail);
    PromptCharAt(TutorLead, e, TutorTail, |TutorLead|);
    PromptCharAt(TutorLead, o, TutorTail, |TutorLead|);
  }

  /** The character at position `k` of a prompt made of a lead, a language
      name and a tail: from the lead before it, the name from there on. */
  lemma PromptCharAt(lead: string, name: string, tail: string, k: nat)
    requires name != [] && k <= |lead|
    ensures k < |lead| ==> (lead + name + tail)[k] == lead[k]
    ensures k == |lead| ==> (lead + name + tail)[k] == name[0]
  {
  }
}
