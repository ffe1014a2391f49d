/** The speech-synthesis side of tts.py: the phrase catalogue, custom phrases, the
    clean-up of the enhancement reply, the choice of text to synthesise and the
    phrase-number check of the menu. */
module Tts {
  import opened Wrappers
  import opened Json
  import opened PyStr

  /** tts.py's own language enum: unlike chat.py's it has no English member. */
  datatype SouthIndianLanguage = Tamil | Telugu | Kannada | Malayalam | Mixed

  /** A phrase to be spoken. `mixRatio` is a Python float, kept as an exact real
      and never computed with. */
  datatype CodeMixedPhrase = CodeMixedPhrase(
    text: string,
    primaryLanguage: SouthIndianLanguage,
    secondaryLanguage: Option<SouthIndianLanguage>,
    mixRatio: real,
    description: string)

  /** `CodeMixedGenerator.sample_phrases`: four phrases for each regional language. */
  const SamplePhrases: map<SouthIndianLanguage, seq<CodeMixedPhrase>> := map[
    Tamil := TamilPhrases,
    Telugu := TeluguPhrases,
    Kannada := KannadaPhrases,
    Malayalam := MalayalamPhrases]

  const TamilPhrases: seq<CodeMixedPhrase> := [
    CodeMixedPhrase("Vanakkam anna! How are you? Naan nalla irukken, thanks for asking.",
      Tamil, None, 0.4, "Tamil greeting with English conversation"),
    CodeMixedPhrase("Office-la meeting irukku, but naan late-aa vandhuruven. Sorry",
      Tamil, None, 0.6, "Tamil-English work context"),
    CodeMixedPhrase("Enna bro, weekend plans edhuvum irukka? Let's go for a movie.",
      Tamil, None, 0.5, "Casual Tamil-English mixing"),
    CodeMixedPhrase("Coffee kudikkalam-aa? I'm feeling very tired today.",
      Tamil, None, 0.4, "Tamil suggestion with English explanation")]

  const TeluguPhrases: seq<CodeMixedPhrase> := [
    CodeMixedPhrase("Namaskaram! How are you doing? Nenu bagane unnaanu, thank you.",
      Telugu, None, 0.4, "Telugu greeting with English"),
    CodeMixedPhrase("Office work chaala busy ga undi. But weekend-lo relax cheyaali.",
      Telugu, None, 0.6, "Telugu-English work talk"),
    CodeMixedPhrase("Biryani thindam raa! I'm very hungry, chala rojula nundi waiting.",
      Telugu, None, 0.5, "Food context mixing"),
    CodeMixedPhrase("Movie ekkada chudaali? Let's book tickets online, convenient ga untundi.",
      Telugu, None, 0.5, "Entertainment planning")]

  const KannadaPhrases: seq<CodeMixedPhrase> := [
    CodeMixedPhrase("Namaskara guru! How are you? Naanu chennagi iddene, thanks for asking.",
      Kannada, None, 0.4, "Kannada greeting with English"),
    CodeMixedPhrase("Traffic jaasti aagtide. I'll be late for the meeting, sorry guru.",
      Kannada, None, 0.5, "Traffic situation mixing"),
    CodeMixedPhrase("Masala dosa thinbekku anstide. Let's go to that new restaurant.",
      Kannada, None, 0.4, "Food craving expression"),
    CodeMixedPhrase("Weekend plans yenu guru? I want to go to Mysore, scenic aagide.",
      Kannada, None, 0.5, "Weekend planning")]

  const MalayalamPhrases: seq<CodeMixedPhrase> := [
    CodeMixedPhrase("Namaskaram machane! How are you? Njaan nannaayi und, thanks.",
      Malayalam, None, 0.4, "Malayalam greeting with English"),
    CodeMixedPhrase("Monsoon kaaranam rain jaasti und. But I love this weather, romantic aanu.",
      Malayalam, None, 0.5, "Weather talk mixing"),
    CodeMixedPhrase("Fish curry kazhikkanamennu thonnunnu. Let's go to that coastal restaurant.",
      Malayalam, None, 0.4, "Food preference"),
    CodeMixedPhrase("Backwaters-il boat ride cheyyaam. I heard it's very peaceful there.",
      Malayalam, None, 0.5, "Tourism activity")]

  /** The mix ratios the catalogue uses. */
  const CatalogueRatios: set<real> := {0.4, 0.5, 0.6}

  /** `CodeMixedGenerator.get_phrases`: `sample_phrases.get(language, [])`. */
  function GetPhrases(language: SouthIndianLanguage): (r: seq<CodeMixedPhrase>)
    ensures language != Mixed ==> |r| == 4
    ensures language == Mixed ==> r == []
    ensures forall i :: 0 <= i < |r| ==>
      && r[i].primaryLanguage == language
      && r[i].secondaryLanguage == None
      && r[i].mixRatio in CatalogueRatios
      && r[i].text != []
  {
    CatalogueEntries(language);
    if language in SamplePhrases then SamplePhrases[language] else []
  }

  /** Four phrases of `language`, none with a secondary language, each with a
      catalogue ratio and a non-empty text. */
  ghost predicate Entry(phrases: seq<CodeMixedPhrase>, language: SouthIndianLanguage) {
    && |phrases| == 4
    && forall i :: 0 <= i < |phrases| ==>
      && phrases[i].primaryLanguage == language
      && phrases[i].secondaryLanguage == None
      && phrases[i].mixRatio in CatalogueRatios
      && phrases[i].text != []
  }

  /** Every regional language has an entry in the catalogue; `Mixed` has none. */
  lemma CatalogueEntries(language: SouthIndianLanguage)
    ensures language != Mixed <==> language in SamplePhrases
    ensures language != Mixed ==> Entry(SamplePhrases[language], language)
  {
    match language
    case Tamil => assert SamplePhrases[Tamil] == TamilPhrases;
    case Telugu => assert SamplePhrases[Telugu] == TeluguPhrases;
    case Kannada => assert SamplePhrases[Kannada] == KannadaPhrases;
    case Malayalam => assert SamplePhrases[Malayalam] == MalayalamPhrases;
    case Mixed =>
  }

  /** `CodeMixedGenerator.generate_custom_phrase`. */
  function GenerateCustomPhrase(baseText: string, language: SouthIndianLanguage): (p: CodeMixedPhrase)
    ensures p.text == baseText && p.primaryLanguage == language
    ensures p.secondaryLanguage == None
    ensures p.mixRatio == 0.3 && p.description == "Custom user input"
  {
    CodeMixedPhrase(baseText, language, None, 0.3, "Custom user input")
  }

  /** A custom phrase never coincides with a catalogue phrase: its mix ratio is
      not one the catalogue uses. */
  lemma CustomPhraseIsNotCatalogued(baseText: string, language: SouthIndianLanguage, l: SouthIndianLanguage)
    ensures GenerateCustomPhrase(baseText, language) !in GetPhrases(l)
  {
    var p := GenerateCustomPhrase(baseText, language);
    var phrases := GetPhrases(l);
    forall i | 0 <= i < |phrases| ensures phrases[i] != p {
      assert phrases[i].mixRatio in CatalogueRatios;
    }
  }

  /** The heading the enhancement prompt ends with, which the reply may echo. */
  const Marker := "Enhanced text for TTS:"

  /** No double quote anywhere in `s`. */
  predicate NoQuote(s: string) {
    forall i :: 0 <= i < |s| ==> s[i] != '"'
  }

  /** The clean-up of the enhancement reply in `enhance_text_for_tts`:
      `.strip()`, then `.replace('"', '')`, then `.replace('Enhanced text for TTS:', '')`,
      then `.strip()`. */
  function PostProcess(reply: string): (r: string)
    ensures NoQuote(r)
    ensures r != [] ==> !IsSpace(r[0]) && !IsSpace(r[|r| - 1])
    ensures CharsFrom(r, reply)
  {
    var stripped := Strip(reply);
    var unquoted := RemoveAll(stripped, ['"']);
    var unmarked := RemoveAll(unquoted, Marker);
    var r := Strip(unmarked);
    PostProcessSteps(reply, stripped, unquoted, unmarked, r);
    r
  }

  lemma {:induction false} PostProcessSteps(reply: string, stripped: string, unquoted: string, unmarked: string, r: string)
    requires CharsFrom(stripped, reply)
    requires unquoted == RemoveAll(stripped, ['"'])
    requires CharsFrom(unmarked, unquoted) && CharsFrom(r, unmarked)
    ensures NoQuote(r) && CharsFrom(r, reply)
  {
    RemoveCharRemovesAll(stripped, '"');
    CharsFromTransitive(r, unmarked, unquoted);
    forall i | 0 <= i < |r| ensures r[i] != '"' {
      assert r[i] in unquoted;
    }
    CharsFromTransitive(r, unquoted, stripped);
    CharsFromTransitive(r, stripped, reply);
  }

  lemma {:induction false} CharsFromTransitive(a: string, b: string, c: string)
    requires CharsFrom(a, b) && CharsFrom(b, c)
    ensures CharsFrom(a, c)
  {
    forall i | 0 <= i < |a| ensures a[i] in c {
      var j :| 0 <= j < |b| && b[j] == a[i];
    }
  }

  /** The clean-up is not idempotent: a reply in which the marker is wrapped
      around a copy of itself comes out as the marker. */
  lemma PostProcessCanLeaveMarker()
    ensures PostProcess(Marker[..3] + Marker + Marker[3..]) == Marker
  {
    MarkerHasNoQuote();
    MarkerLetters();
    SplicedIsClean(Marker);
    SplicedLosesInnerCopy(Marker);
    StripUnchanged(Marker);
  }

  lemma MarkerHasNoQuote()
    ensures '"' !in Marker
  {
    assert Marker == ['E', 'n', 'h', 'a', 'n', 'c', 'e', 'd', ' ', 't', 'e', 'x', 't', ' ',
                      'f', 'o', 'r', ' ', 'T', 'T', 'S', ':'];
  }

  lemma MarkerLetters()
    ensures |Marker| == 22
    ensures Marker[0] == 'E' && Marker[1] == 'n' && Marker[2] == 'h' && Marker[3] == 'a'
    ensures !IsSpace(Marker[0]) && !IsSpace(Marker[21])
  {
  }

  /** A pattern spliced into itself after three characters has no outer
      whitespace and no quote when the pattern has none, so the first two
      steps of the clean-up leave it as it is. */
  lemma SplicedIsClean(m: string)
    requires |m| > 3 && '"' !in m && !IsSpace(m[0]) && !IsSpace(m[|m| - 1])
    ensures var s := m[..3] + m + m[3..];
      Strip(s) == s && RemoveAll(s, ['"']) == s
  {
    var s := m[..3] + m + m[3..];
    assert s[0] == m[0] && s[|s| - 1] == m[|m| - 1];
    assert '"' !in s;
    StripUnchanged(s);
    RemoveAbsentChar(s, '"');
  }

  /** When the pattern's first character is not among its next three,
      removing it from the pattern spliced into itself cuts out the inner
      copy and joins the outer pieces back into the pattern. */
  lemma SplicedLosesInnerCopy(m: string)
    requires |m| > 3 && m[1] != m[0] && m[2] != m[0] && m[3] != m[0]
    ensures RemoveAll(m[..3] + m + m[3..], m) == m
  {
    var s := m[..3] + m + m[3..];
    NoOccurrenceBeforeInnerCopy(m);
    RemoveAllKeepsUnmatched(s, m, 3);
    ConcatParts(m[..3], m, m[3..]);
    CutLeading(m, m[3..]);
    assert |m[3..]| < |m|;
    calc {
      RemoveAll(s, m);
      s[..3] + RemoveAll(s[3..], m);
      m[..3] + RemoveAll(m + m[3..], m);
      m[..3] + RemoveAll(m[3..], m);
      m[..3] + m[3..];
    }
    assert m[..3] + m[3..] == m;
  }

  lemma ConcatParts(a: string, b: string, c: string)
    ensures (a + b + c)[..|a|] == a && (a + b + c)[|a|..] == b + c
  {
  }

  lemma NoOccurrenceBeforeInnerCopy(m: string)
    requires |m| > 3 && m[1] != m[0] && m[2] != m[0] && m[3] != m[0]
    ensures forall j :: 0 <= j < 3 ==> !OccursAt(m[..3] + m + m[3..], m, j)
  {
    var s := m[..3] + m + m[3..];
    forall j | 0 <= j < 3 ensures !OccursAt(s, m, j) {
      var k := if j == 0 then 3 else 0;
      assert s[j + k] != m[k];
      assert s[j..j + |m|][k] == s[j + k];
    }
  }

  /** `enhance_text_for_tts`, given what the completion call produced: the
      cleaned-up reply, or the phrase's own text when the call raised. */
  function EnhanceTextForTts(phrase: CodeMixedPhrase, reply: Outcome<string>): (r: string)
    ensures reply.Fail? ==> r == phrase.text
    ensures reply.Ok? ==> NoQuote(r) && CharsFrom(r, reply.payload)
    ensures reply.Ok? ==> r != [] ==> !IsSpace(r[0]) && !IsSpace(r[|r| - 1])
  {
    match reply
    case Ok(content) => PostProcess(content)
    case Fail(_) => phrase.text
  }

  /** The text `generate_speech` sends for synthesis. */
  function TextToSpeak(phrase: CodeMixedPhrase, enhance: bool, reply: Outcome<string>): (r: string)
    ensures !enhance ==> r == phrase.text
    ensures enhance ==> r == EnhanceTextForTts(phrase, reply)
  {
    if enhance then EnhanceTextForTts(phrase, reply) else phrase.text
  }

  /** The outcome of the phrase-number prompt of the menu. */
  datatype PhraseChoice = Selected(phrase: CodeMixedPhrase) | InvalidPhraseNumber | NotANumber

  /** The phrase-number check of the menu, given what `int(phrase_choice)`
      produced (`None` where it raised `ValueError`). */
  function SelectPhrase(phrases: seq<CodeMixedPhrase>, parsed: Option<int>): (r: PhraseChoice)
    ensures r.NotANumber? <==> parsed.None?
    ensures r.Selected? <==> parsed.Some? && 1 <= parsed.value <= |phrases|
    ensures r.Selected? ==> r.phrase == phrases[parsed.value - 1]
  {
    match parsed
    case None => NotANumber
    case Some(n) =>
      var phraseIdx := n - 1;
      if 0 <= phraseIdx < |phrases| then Selected(phrases[phraseIdx]) else InvalidPhraseNumber
  }
}
