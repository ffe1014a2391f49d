/** The text chat pipeline of chat.py: the language detector, the cultural context
    table, the choice of system directive and the chat bot's conversation history. */
module Chat {
  import opened Wrappers
  import opened Json

  // ---------------------------------------------------------------------------
  // Languages and detection records
  // ---------------------------------------------------------------------------

  /** The closed set of language tags the chat understands. */
  datatype SouthIndianLanguage = Tamil | Telugu | Kannada | Malayalam | English | Mixed

  /** The enum member's value, the string the detector expects in the JSON reply. */
  function Name(l: SouthIndianLanguage): string {
    match l
    case Tamil => "tamil"
    case Telugu => "telugu"
    case Kannada => "kannada"
    case Malayalam => "malayalam"
    case English => "english"
    case Mixed => "mixed"
  }

  /** The JSON values that `SouthIndianLanguage(v)` accepts. */
  const LanguageValues: set<Value> :=
    {Str("tamil"), Str("telugu"), Str("kannada"), Str("malayalam"), Str("english"), Str("mixed")}

  /** `SouthIndianLanguage(v)`: the member whose value equals `v`, or `None` where
      Python raises `ValueError`. */
  function LanguageOf(v: Value): (r: Option<SouthIndianLanguage>)
    ensures r.Some? <==> v in LanguageValues
    ensures r.Some? ==> v == Str(Name(r.value))
  {
    match v
    case Str(s) =>
      if s == "tamil" then Some(Tamil)
      else if s == "telugu" then Some(Telugu)
      else if s == "kannada" then Some(Kannada)
      else if s == "malayalam" then Some(Malayalam)
      else if s == "english" then Some(English)
      else if s == "mixed" then Some(Mixed)
      else None
    case _ => None
  }

  /** Looking a member up by its own value gives the member back. */
  lemma LanguageOfName(l: SouthIndianLanguage)
    ensures LanguageOf(Str(Name(l))) == Some(l)
  {
  }

  /** Distinct members have distinct values, so a value names at most one member. */
  lemma NameInjective(a: SouthIndianLanguage, b: SouthIndianLanguage)
    requires Name(a) == Name(b)
    ensures a == b
  {
  }

  /** One detection. The three scalar fields are copied from the service's JSON
      without any type, range or consistency check, so they stay JSON values. */
  datatype LanguageDetectionResult = LanguageDetectionResult(
    primaryLanguage: SouthIndianLanguage,
    secondaryLanguage: Option<SouthIndianLanguage>,
    confidence: Value,
    isCodeMixed: Value,
    mixRatio: Value)

  /** The record returned whenever detection raises. */
  const Fallback := LanguageDetectionResult(English, None, Float(0.5), Bool(false), Float(0.0))

  /** The keys the detector reads with `result[...]` (a missing one raises `KeyError`). */
  const RequiredKeys: set<string> := {"primary_language", "confidence", "is_code_mixed", "mix_ratio"}

  /** The secondary language is read only when `result.get("secondary_language")`
      is truthy. */
  predicate HasSecondary(m: map<string, Value>) {
    "secondary_language" in m && Truthy(m["secondary_language"])
  }

  /** The replies for which the record construction in detect_language raises nothing. */
  ghost predicate Accepted(reply: Outcome<Decoded>) {
    && reply.Ok?
    && reply.payload.Decoded?
    && reply.payload.value.Obj?
    && var m := reply.payload.value.fields;
    && RequiredKeys <= m.Keys
    && m["primary_language"] in LanguageValues
    && (HasSecondary(m) ==> m["secondary_language"] in LanguageValues)
  }

  /** The record construction of detect_language on an already decoded reply;
      `None` where one of its lookups raises. */
  function ParseDetection(v: Value): Option<LanguageDetectionResult> {
    if !v.Obj? || "primary_language" !in v.fields then None
    else
      var m := v.fields;
      match LanguageOf(m["primary_language"])
      case None => None
      case Some(primary) =>
        var secondary := if HasSecondary(m) then LanguageOf(m["secondary_language"]) else None;
        if HasSecondary(m) && secondary.None? then None
        else if "confidence" !in m || "is_code_mixed" !in m || "mix_ratio" !in m then None
        else Some(LanguageDetectionResult(primary, secondary, m["confidence"], m["is_code_mixed"], m["mix_ratio"]))
  }

  /** `CodeMixedLanguageDetector.detect_language`, given what the completion call
      and `json.loads` produced. Every exception ends in the one fallback record;
      otherwise the enum fields name the reply's strings and the rest is copied. */
  function DetectLanguage(reply: Outcome<Decoded>): (r: LanguageDetectionResult)
    ensures !Accepted(reply) ==> r == Fallback
    ensures Accepted(reply) ==>
      var m := reply.payload.value.fields;
      && Str(Name(r.primaryLanguage)) == m["primary_language"]
      && (r.secondaryLanguage.None? <==> !HasSecondary(m))
      && (r.secondaryLanguage.Some? ==> Str(Name(r.secondaryLanguage.value)) == m["secondary_language"])
      && r.confidence == m["confidence"]
      && r.isCodeMixed == m["is_code_mixed"]
      && r.mixRatio == m["mix_ratio"]
  {
    match reply
    case Ok(Decoded(v)) =>
      (match ParseDetection(v)
       case Some(d) => d
       case None => Fallback)
    case _ => Fallback
  }

  /** Repeated failures give field-for-field identical records. */
  lemma FailuresAreIdentical(a: Outcome<Decoded>, b: Outcome<Decoded>)
    requires !Accepted(a) && !Accepted(b)
    ensures DetectLanguage(a) == DetectLanguage(b) == Fallback
  {
  }

  /** A reply naming a language outside the enum, as primary or as a truthy
      secondary, is rejected as a whole. */
  lemma UnknownLanguageFallsBack(m: map<string, Value>)
    requires "primary_language" in m
    requires m["primary_language"] !in LanguageValues
      || (HasSecondary(m) && m["secondary_language"] !in LanguageValues)
    ensures DetectLanguage(Ok(Decoded(Obj(m)))) == Fallback
  {
  }

  /** The detector does not normalise: a secondary language may come back while
      the record says the text is not code-mixed, with any mix ratio. */
  lemma DetectionIsNotNormalised()
    ensures var r := DetectLanguage(Ok(Decoded(Obj(map[
              "primary_language" := Str("tamil"),
              "secondary_language" := Str("english"),
              "confidence" := Float(0.9),
              "is_code_mixed" := Bool(false),
              "mix_ratio" := Float(0.7)]))));
            r.secondaryLanguage == Some(English) && !Truthy(r.isCodeMixed) && r.mixRatio == Float(0.7)
  {
    var m := map[
      "primary_language" := Str("tamil"),
      "secondary_language" := Str("english"),
      "confidence" := Float(0.9),
      "is_code_mixed" := Bool(false),
      "mix_ratio" := Float(0.7)];
    assert Accepted(Ok(Decoded(Obj(m))));
  }

  // ---------------------------------------------------------------------------
  // Cultural context and the system directive
  // ---------------------------------------------------------------------------

  /** One entry of the bot's cultural context table. */
  datatype CulturalContext = CulturalContext(greeting: string, culture: string, food: string)

  /** The bot's `cultural_context` table: entries for the four regional languages only. */
  const CulturalTable: map<SouthIndianLanguage, CulturalContext> := map[
    Tamil := CulturalContext("Vanakkam",
      "Tamil Nadu culture, Chennai references, Tamil cinema",
      "dosa, idli, sambar, rasam, Tamil cuisine"),
    Telugu := CulturalContext("Namaskaram",
      "Andhra/Telangana culture, Hyderabad references, Tollywood",
      "biryani, pesarattu, gongura, Telugu cuisine"),
    Kannada := CulturalContext("Namaskara",
      "Karnataka culture, Bangalore references, Sandalwood",
      "masala dosa, mysore pak, Kannada cuisine"),
    Malayalam := CulturalContext("Namaskaram",
      "Kerala culture, backwaters, Malayalam cinema",
      "appam, fish curry, coconut, Kerala cuisine")]

  /** The defaults `context.get(key, default)` falls back on when the table has
      no entry for the language. */
  const DefaultContext := CulturalContext("Hello", "General South Indian", "South Indian cuisine")

  /** `self.cultural_context.get(primary, {})` followed by the three `.get` calls. */
  function ContextFor(l: SouthIndianLanguage): (c: CulturalContext)
    ensures l in {English, Mixed} ==> c == DefaultContext
    ensures l == Tamil ==> c.greeting == "Vanakkam"
    ensures l in {Telugu, Malayalam} ==> c.greeting == "Namaskaram"
    ensures l == Kannada ==> c.greeting == "Namaskara"
  {
    CulturalTableKeys();
    if l in CulturalTable then CulturalTable[l] else DefaultContext
  }

  /** The table has entries for exactly the four regional languages. */
  lemma CulturalTableKeys()
    ensures CulturalTable.Keys == {Tamil, Telugu, Kannada, Malayalam}
  {
  }

  /** The system directive, by branch: the code-mixed directive with the language
      and the cultural fields it interpolates, the plain English directive, or the
      regional/English blend for the language. The prose wording is not modelled. */
  datatype Directive =
    | CodeMixedDirective(language: SouthIndianLanguage, greeting: string, culture: string, food: string)
    | EnglishDirective
    | BlendDirective(language: SouthIndianLanguage)

  /** `CodeMixedChatBot.create_system_prompt`. */
  function CreateSystemPrompt(d: LanguageDetectionResult): (r: Directive)
    ensures r.CodeMixedDirective? <==> Truthy(d.isCodeMixed)
    ensures r.EnglishDirective? <==> !Truthy(d.isCodeMixed) && d.primaryLanguage == English
    ensures r.BlendDirective? <==> !Truthy(d.isCodeMixed) && d.primaryLanguage != English
    ensures r.CodeMixedDirective? || r.BlendDirective? ==> r.language == d.primaryLanguage
    ensures r.CodeMixedDirective? && d.primaryLanguage in CulturalTable ==>
      CulturalContext(r.greeting, r.culture, r.food) == CulturalTable[d.primaryLanguage]
    ensures r.CodeMixedDirective? && d.primaryLanguage !in CulturalTable ==>
      r.greeting == "Hello" && r.culture == "General South Indian" && r.food == "South Indian cuisine"
  {
    var primary := d.primaryLanguage;
    var context := ContextFor(primary);
    if Truthy(d.isCodeMixed) then
      CodeMixedDirective(primary, context.greeting, context.culture, context.food)
    else if primary == English then
      EnglishDirective
    else
      BlendDirective(primary)
  }

  /** Which of the three branches a directive comes from. */
  function Branch(r: Directive): nat {
    match r
    case CodeMixedDirective(_, _, _, _) => 0
    case EnglishDirective => 1
    case BlendDirective(_) => 2
  }

  /** The branch depends on nothing but the truthiness of `is_code_mixed` and
      whether the primary language is English. */
  lemma BranchDependsOnlyOnFlags(d1: LanguageDetectionResult, d2: LanguageDetectionResult)
    requires Truthy(d1.isCodeMixed) == Truthy(d2.isCodeMixed)
    requires (d1.primaryLanguage == English) == (d2.primaryLanguage == English)
    ensures Branch(CreateSystemPrompt(d1)) == Branch(CreateSystemPrompt(d2))
  {
  }

  /** A code-mixed Tamil reply is answered with the code-mixed directive carrying
      the Tamil cultural context. */
  lemma CodeMixedTamilScenario(m: map<string, Value>)
    requires RequiredKeys <= m.Keys
    requires m["primary_language"] == Str("tamil")
    requires HasSecondary(m) ==> m["secondary_language"] in LanguageValues
    requires Truthy(m["is_code_mixed"])
    ensures CreateSystemPrompt(DetectLanguage(Ok(Decoded(Obj(m))))) == CodeMixedDirective(Tamil,
      "Vanakkam",
      "Tamil Nadu culture, Chennai references, Tamil cinema",
      "dosa, idli, sambar, rasam, Tamil cuisine")
  {
    var r := DetectLanguage(Ok(Decoded(Obj(m))));
    assert Accepted(Ok(Decoded(Obj(m))));
    NameInjective(r.primaryLanguage, Tamil);
  }

  // ---------------------------------------------------------------------------
  // Conversation history and the chat bot
  // ---------------------------------------------------------------------------

  datatype Role = User | Assistant

  /** One entry of `conversation_history`: `{"role": ..., "content": ...}`. */
  datatype Turn = Turn(role: Role, content: string)

  /** One message sent for generation: the leading system directive, or a turn. */
  datatype Message = System(directive: Directive) | Said(turn: Turn)

  /** How many turns of history go with each generation request. */
  const WindowSize: nat := 10

  /** `conversation_history[-10:]`: the most recent turns, all of them when there
      are ten or fewer. */
  function Window(h: seq<Turn>): (w: seq<Turn>)
    ensures |w| == if |h| <= WindowSize then |h| else WindowSize
    ensures forall i :: 0 <= i < |w| ==> w[i] == h[|h| - |w| + i]
  {
    if |h| <= WindowSize then h else h[|h| - WindowSize..]
  }

  /** The window ends with the turn appended last, so the request does too. */
  lemma RequestEndsWithLatest(d: Directive, h: seq<Turn>, t: Turn)
    ensures var msgs := Request(d, Window(h + [t])); msgs[|msgs| - 1] == Said(t)
  {
    var w := Window(h + [t]);
    assert w[|w| - 1] == (h + [t])[|h + [t]| - 1] == t;
  }

  /** `[{"role": "system", ...}] + recent_history`. */
  function Request(d: Directive, w: seq<Turn>): (msgs: seq<Message>)
    ensures |msgs| == |w| + 1 && msgs[0] == System(d)
    ensures forall i :: 0 <= i < |w| ==> msgs[i + 1] == Said(w[i])
  {
    [System(d)] + seq(|w|, i requires 0 <= i < |w| => Said(w[i]))
  }

  /** The reply returned to the caller (the processing time is not modelled). */
  datatype ChatResponse = ChatResponse(
    responseText: string,
    detectedLanguage: LanguageDetectionResult,
    responseLanguage: SouthIndianLanguage)

  /** The text returned when generation fails. */
  const Apology := "Sorry, I'm having trouble right now. Please try again!"

  /** The history after one call of generate_response: the user turn is always
      appended, the assistant turn only when generation returned text. */
  function NextHistory(h: seq<Turn>, userInput: string, generation: Outcome<string>): seq<Turn> {
    match generation
    case Ok(text) => h + [Turn(User, userInput), Turn(Assistant, text)]
    case Fail(_) => h + [Turn(User, userInput)]
  }

  /** The response generate_response returns for a detection and a generation outcome. */
  function ResponseFor(detected: LanguageDetectionResult, generation: Outcome<string>): (r: ChatResponse)
    ensures r.detectedLanguage == detected
    ensures generation.Ok? ==> r.responseText == generation.payload && r.responseLanguage == detected.primaryLanguage
    ensures generation.Fail? ==> r.responseText == Apology && r.responseLanguage == English
  {
    match generation
    case Ok(text) => ChatResponse(text, detected, detected.primaryLanguage)
    case Fail(_) => ChatResponse(Apology, detected, English)
  }

  /** Every assistant turn directly follows a user turn: assistant turns are only
      ever appended right after the user turn they answer. */
  ghost predicate WellPaired(h: seq<Turn>) {
    forall i :: 0 <= i < |h| && h[i].role == Assistant ==> 0 < i && h[i - 1].role == User
  }

  /** One call of generate_response keeps the old history as a prefix, grows it by
      two turns on success and one on failure, and keeps it well paired. */
  lemma NextHistoryGrows(h: seq<Turn>, userInput: string, generation: Outcome<string>)
    ensures var h' := NextHistory(h, userInput, generation);
      && h'[..|h|] == h
      && h'[|h|] == Turn(User, userInput)
      && |h'| == |h| + (if generation.Ok? then 2 else 1)
      && (WellPaired(h) ==> WellPaired(h'))
  {
    var h' := NextHistory(h, userInput, generation);
    if WellPaired(h) {
      forall i | 0 <= i < |h'| && h'[i].role == Assistant
        ensures 0 < i && h'[i - 1].role == User
      {
        if i >= |h| {
          assert generation.Ok? && i == |h| + 1;
        }
      }
    }
  }

  /** One user input together with what the two service calls of its turn produced. */
  datatype Exchange = Exchange(userInput: string, detection: Outcome<Decoded>, generation: Outcome<string>)

  /** The history after a sequence of calls of generate_response. */
  function Converse(h: seq<Turn>, exchanges: seq<Exchange>): seq<Turn>
    decreases |exchanges|
  {
    if exchanges == [] then h
    else Converse(NextHistory(h, exchanges[0].userInput, exchanges[0].generation), exchanges[1..])
  }

  /** The number of exchanges whose generation succeeded: all of them exactly
      when every generation succeeded, none exactly when every one failed. */
  function Successes(exchanges: seq<Exchange>): (n: nat)
    ensures n <= |exchanges|
    ensures n == |exchanges| <==> forall i :: 0 <= i < |exchanges| ==> exchanges[i].generation.Ok?
    ensures n == 0 <==> forall i :: 0 <= i < |exchanges| ==> exchanges[i].generation.Fail?
    decreases |exchanges|
  {
    if exchanges == [] then 0
    else
      var rest := exchanges[1..];
      assert forall i :: 1 <= i < |exchanges| ==> exchanges[i] == rest[i - 1];
      (if exchanges[0].generation.Ok? then 1 else 0) + Successes(rest)
  }

  /** History is never truncated: after any calls it grows by one turn per call
      plus one per successful generation, and it starts with the old history. */
  lemma {:induction false} ConverseGrows(h: seq<Turn>, exchanges: seq<Exchange>)
    ensures |Converse(h, exchanges)| == |h| + |exchanges| + Successes(exchanges)
    ensures Converse(h, exchanges)[..|h|] == h
    decreases |exchanges|
  {
    if exchanges != [] {
      var e := exchanges[0];
      var h1 := NextHistory(h, e.userInput, e.generation);
      NextHistoryGrows(h, e.userInput, e.generation);
      ConverseGrows(h1, exchanges[1..]);
      assert Converse(h, exchanges)[..|h1|][..|h|] == Converse(h, exchanges)[..|h|];
    }
  }

  /** After N calls that all succeed, a fresh history holds 2N turns. */
  lemma AllSuccessfulDoubles(exchanges: seq<Exchange>)
    requires forall i :: 0 <= i < |exchanges| ==> exchanges[i].generation.Ok?
    ensures |Converse([], exchanges)| == 2 * |exchanges|
  {
    ConverseGrows([], exchanges);
  }

  /** A sequence of calls keeps the history well paired. */
  lemma {:induction false} ConverseWellPaired(h: seq<Turn>, exchanges: seq<Exchange>)
    requires WellPaired(h)
    ensures WellPaired(Converse(h, exchanges))
    decreases |exchanges|
  {
    if exchanges != [] {
      var e := exchanges[0];
      NextHistoryGrows(h, e.userInput, e.generation);
      ConverseWellPaired(NextHistory(h, e.userInput, e.generation), exchanges[1..]);
    }
  }

  /** `CodeMixedChatBot`: the conversation history it owns and appends to. */
  class CodeMixedChatBot {
    var conversationHistory: seq<Turn>

    ghost predicate Valid()
      reads this
    {
      WellPaired(conversationHistory)
    }

    constructor ()
      ensures Valid() && conversationHistory == []
    {
      conversationHistory := [];
    }

    /** `generate_response`, given what the detection call and the generation call
        produce. Returns the response and the messages sent for generation. */
    method GenerateResponse(userInput: string, detection: Outcome<Decoded>, generation: Outcome<string>)
      returns (response: ChatResponse, request: seq<Message>)
      requires Valid()
      modifies this
      ensures Valid()
      ensures conversationHistory == NextHistory(old(conversationHistory), userInput, generation)
      ensures request == Request(CreateSystemPrompt(DetectLanguage(detection)),
                                 Window(old(conversationHistory) + [Turn(User, userInput)]))
      ensures request[|request| - 1] == Said(Turn(User, userInput))
      ensures response == ResponseFor(DetectLanguage(detection), generation)
    {
      var detected := DetectLanguage(detection);
      var systemPrompt := CreateSystemPrompt(detected);
      response, request := Respond(userInput, detected, systemPrompt, generation);
    }

    /** The part of `generate_response` after detection and the choice of
        directive: append the user turn, send the directive and the recent
        turns, and append the reply when there is one. */
    method Respond(userInput: string, detected: LanguageDetectionResult, systemPrompt: Directive,
                   generation: Outcome<string>)
      returns (response: ChatResponse, request: seq<Message>)
      requires Valid()
      modifies this
      ensures Valid()
      ensures conversationHistory == NextHistory(old(conversationHistory), userInput, generation)
      ensures request == Request(systemPrompt, Window(old(conversationHistory) + [Turn(User, userInput)]))
      ensures request[|request| - 1] == Said(Turn(User, userInput))
      ensures response == ResponseFor(detected, generation)
    {
      conversationHistory := conversationHistory + [Turn(User, userInput)];
      var recentHistory := Window(conversationHistory);
      request := Request(systemPrompt, recentHistory);
      RequestEndsWithLatest(systemPrompt, old(conversationHistory), Turn(User, userInput));
      match generation {
        case Ok(responseText) =>
          conversationHistory := conversationHistory + [Turn(Assistant, responseText)];
          assert conversationHistory == old(conversationHistory) + [Turn(User, userInput), Turn(Assistant, responseText)];
          response := ChatResponse(responseText, detected, detected.primaryLanguage);
        case Fail(_) =>
          response := ChatResponse(Apology, detected, English);
      }
      NextHistoryGrows(old(conversationHistory), userInput, generation);
    }
  }
}
