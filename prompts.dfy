/**
 * The text sent to the language model (src/lib/gemini/prompts.ts): the
 * role-play system prompt for a persona in a scenario, and the prompt that
 * asks for a scored analysis of a finished conversation.
 */
module Prompts {
  import opened Text
  import Seqs
  import QaEditor

  /** The persona fields the prompt reads; a missing `custom_qa` is empty. */
  datatype Persona = Persona(
    name: string,
    title: string,
    description: string,
    personalityTraits: seq<string>,
    communicationStyle: string,
    customQa: seq<QaEditor.CustomQA>)

  /** The scenario fields the prompts read. */
  datatype Scenario = Scenario(title: string, context: string, objectives: seq<string>)

  datatype Message = Message(role: string, content: string)

  // ---------------------------------------------------------------------
  // Objectives

  /** `${i + 1}. ${obj}` for the objective at index `i`. */
  function NumberedObjective(i: nat, objective: string): (line: string)
    ensures line == DecimalString(i + 1) + ". " + objective
  {
    DecimalString(i + 1) + ". " + objective
  }

  function ObjectiveLines(objectives: seq<string>): (lines: seq<string>)
    ensures |lines| == |objectives|
    ensures forall i :: 0 <= i < |objectives| ==> lines[i] == NumberedObjective(i, objectives[i])
  {
    seq(|objectives|, i requires 0 <= i < |objectives| => NumberedObjective(i, objectives[i]))
  }

  /** The numbered objectives, one per line. */
  function ObjectivesList(objectives: seq<string>): (text: string)
    ensures objectives == [] ==> text == ""
  {
    Join(ObjectiveLines(objectives), "\n")
  }

  /** The number in front of each line reads back as its 1-based position. */
  lemma ObjectiveNumbering(i: nat, objective: string)
    ensures var digits := DecimalString(i + 1);
      var line := NumberedObjective(i, objective);
      line[..|digits|] == digits && DecimalValue(line[..|digits|]) == i + 1 &&
      line[|digits|..] == ". " + objective
  {
    DecimalRoundTrip(i + 1);
    var digits := DecimalString(i + 1);
    var line := NumberedObjective(i, objective);
    assert line == digits + (". " + objective);
  }

  /** Objectives written on one line each come back line by line, in order. */
  lemma ObjectivesListLines(objectives: seq<string>)
    requires |objectives| >= 1
    requires forall i :: 0 <= i < |objectives| ==> '\n' !in objectives[i]
    ensures Split(ObjectivesList(objectives), '\n') == ObjectiveLines(objectives)
  {
    var lines := ObjectiveLines(objectives);
    forall i | 0 <= i < |lines| ensures '\n' !in lines[i] {
      var digits := DecimalString(i + 1);
      assert lines[i] == digits + ". " + objectives[i];
      assert '\n' !in digits;
    }
    SplitJoin(lines, '\n');
  }

  // ---------------------------------------------------------------------
  // Traits

  /** The personality traits as one comma-separated phrase. */
  function TraitsDescription(traits: seq<string>): (text: string)
    ensures traits == [] ==> text == ""
    ensures |traits| == 1 ==> text == traits[0]
  {
    Join(traits, ", ")
  }

  /** Each further trait comes after the ones before it. */
  lemma TraitsInOrder(traits: seq<string>, t: string)
    requires |traits| >= 1
    ensures TraitsDescription(traits + [t]) == TraitsDescription(traits) + ", " + t
  {
    JoinAppend(traits, t, ", ");
  }

  /** No trait is left out. */
  lemma TraitsAllMentioned(traits: seq<string>, i: nat)
    requires i < |traits|
    ensures Contains(TraitsDescription(traits), traits[i])
  {
    JoinContainsPart(traits, ", ", i);
  }

  // ---------------------------------------------------------------------
  // Transcript

  /** System messages are not shown to the analysis. */
  predicate Shown(m: Message) { m.role != "system" }

  function RoleLabel(role: string): (name: string)
    ensures name == "User" || name == "AI Persona"
    ensures name == "User" <==> role == "user"
  {
    if role == "user" then "User" else "AI Persona"
  }

  function Entry(m: Message): (entry: string)
    ensures entry == RoleLabel(m.role) + ": " + m.content
  {
    RoleLabel(m.role) + ": " + m.content
  }

  /** The labelled turns of the conversation, system messages dropped. */
  function TranscriptEntries(messages: seq<Message>): (entries: seq<string>)
    ensures |entries| <= |messages|
  {
    Seqs.Map(Seqs.Filter(messages, Shown), Entry)
  }

  /** The transcript as the analysis prompt shows it: turns separated by a blank line. */
  function ConversationText(messages: seq<Message>): (text: string)
    ensures (forall i :: 0 <= i < |messages| ==> !Shown(messages[i])) ==> text == ""
  {
    var shown := Seqs.Filter(messages, Shown);
    assert (forall i :: 0 <= i < |messages| ==> !Shown(messages[i])) ==> shown == [] by {
      if shown != [] {
        assert Shown(shown[0]);
      }
    }
    Join(Seqs.Map(shown, Entry), "\n\n")
  }

  /** A message arriving later: dropped if it is a system message, else appended. */
  lemma TranscriptAppend(messages: seq<Message>, m: Message)
    ensures !Shown(m) ==> TranscriptEntries(messages + [m]) == TranscriptEntries(messages)
    ensures Shown(m) ==> TranscriptEntries(messages + [m]) == TranscriptEntries(messages) + [Entry(m)]
  {
    Seqs.FilterSnoc(messages, m, Shown);
    if Shown(m) {
      Seqs.MapSnoc(Seqs.Filter(messages, Shown), m, Entry);
    }
  }

  /** The entries come from shown messages only, and in their order. */
  lemma TranscriptFromShownMessages(messages: seq<Message>)
    ensures var shown := Seqs.Filter(messages, Shown);
      Seqs.IsSubsequence(shown, messages) &&
      TranscriptEntries(messages) == Seqs.Map(shown, Entry)
  {
    Seqs.FilterIsSubsequence(messages, Shown);
  }

  /** A later shown message extends the transcript by one paragraph. */
  lemma ConversationTextAppend(messages: seq<Message>, m: Message)
    requires Shown(m) && |TranscriptEntries(messages)| >= 1
    ensures ConversationText(messages + [m]) == ConversationText(messages) + "\n\n" + Entry(m)
  {
    TranscriptAppend(messages, m);
    JoinAppend(TranscriptEntries(messages), Entry(m), "\n\n");
  }

  // ---------------------------------------------------------------------
  // Behavioural rules

  const RulesHeader: string :=
    "## Behavioral Rules " + "(follow these " + "naturally during " + "the conversation)"

  lemma RulesHeaderIsOneLine()
    ensures '\n' !in RulesHeader
  {
    assert '\n' !in "## Behavioral Rules ";
    assert '\n' !in "(follow these ";
    assert '\n' !in "naturally during ";
    assert '\n' !in "the conversation)";
  }

  function RuleLine(qa: QaEditor.CustomQA): (line: string)
    ensures line == "- When " + qa.trigger + ": " + qa.response
  {
    "- When " + qa.trigger + ": " + qa.response
  }

  function RuleLines(customQa: seq<QaEditor.CustomQA>): (lines: seq<string>)
    ensures |lines| == |customQa|
    ensures forall i :: 0 <= i < |customQa| ==> lines[i] == RuleLine(customQa[i])
  {
    Seqs.Map(customQa, RuleLine)
  }

  /** The rules block: present only for a persona with rules, closed by a blank line. */
  function RulesSection(customQa: seq<QaEditor.CustomQA>): (section: string)
    ensures section == "" <==> customQa == []
  {
    if customQa == [] then ""
    else RulesHeader + "\n" + Join(RuleLines(customQa), "\n") + "\n\n"
  }

  /** Rules written on one line each: the block is the header, one line per rule, a blank line. */
  lemma RulesSectionLines(customQa: seq<QaEditor.CustomQA>)
    requires customQa != []
    requires forall i :: 0 <= i < |customQa| ==>
      '\n' !in customQa[i].trigger && '\n' !in customQa[i].response
    ensures Split(RulesSection(customQa), '\n') == [RulesHeader] + RuleLines(customQa) + ["", ""]
  {
    var lines := RuleLines(customQa);
    var all := [RulesHeader] + lines + ["", ""];
    assert ([RulesHeader] + lines)[1..] == lines;
    JoinAppend([RulesHeader] + lines, "", "\n");
    assert [RulesHeader] + lines + [""] + [""] == all;
    JoinAppend([RulesHeader] + lines + [""], "", "\n");
    assert Join(all, "\n") == RulesSection(customQa);
    RulesHeaderIsOneLine();
    forall i | 0 <= i < |all| ensures '\n' !in all[i] {
      if i == 0 {
        assert all[i] == RulesHeader;
      } else if i <= |lines| {
        assert all[i] == "- When " + customQa[i - 1].trigger + ": " + customQa[i - 1].response;
      }
    }
    SplitJoin(all, '\n');
  }

  // ---------------------------------------------------------------------
  // Whole prompts

  /** The system prompt up to the traits. */
  function CharacterIntro(name: string, title: string, description: string): string
  {
    "You are roleplaying as " + name + ", " + title + ".\n\n" +
    "## Your Character\n" +
    "- **Description:** " + description + "\n" +
    "- **Personality Traits:** "
  }

  /** From after the traits to the end of the guidelines. */
  function CharacterOutro(name: string, communicationStyle: string, context: string): string
  {
    "\n- **Communication Style:** " + communicationStyle + "\n\n" +
    "## Scenario Context\n" + context + "\n\n" +
    "## Your Role\n" +
    "Stay fully in character as " + name + " throughout the conversation. " +
    "React authentically based on your personality traits and communication style. " +
    "You are not an AI assistant - you ARE this character.\n\n" +
    "## Guidelines\n" +
    "1. Never break character or acknowledge you are an AI\n" +
    "2. Respond naturally as this person would in a real workplace conversation\n" +
    "3. Keep responses concise (2-4 sentences typically, unless the situation calls for more)\n" +
    "4. Show authentic emotional reactions based on your character's personality\n" +
    "5. If the user is doing well, gradually become slightly more receptive (but stay in character)\n" +
    "6. If the user is being rude or aggressive, react as your character naturally would\n\n"
  }

  /** Everything before the rules block; it does not depend on the rules. */
  function SystemPromptHead(name: string, title: string, description: string,
    traits: seq<string>, communicationStyle: string, context: string): string
  {
    CharacterIntro(name, title, description) + TraitsDescription(traits) +
    CharacterOutro(name, communicationStyle, context)
  }

  const ObjectivesIntro: string :=
    "## User's Hidden Objectives (do not reference these directly)\n" +
    "The user is practicing workplace communication. Their goals are:\n"

  const ClosingInstructions: string :=
    "\n\n" +
    "React naturally - don't make it too easy, but don't be impossible to work with either. " +
    "The goal is realistic practice.\n\n" +
    "Start the conversation in character. " +
    "Your opening line should set the scene based on the scenario context."

  /** Everything after the rules block. */
  function SystemPromptTail(scenario: Scenario): string
  {
    ObjectivesIntro + ObjectivesList(scenario.objectives) + ClosingInstructions
  }

  function BuildSystemPrompt(persona: Persona, scenario: Scenario): string
  {
    SystemPromptHead(persona.name, persona.title, persona.description, persona.personalityTraits,
      persona.communicationStyle, scenario.context) +
    RulesSection(persona.customQa) + SystemPromptTail(scenario)
  }

  /** The character section lists the traits. */
  lemma HeadContainsTraits(name: string, title: string, description: string,
    traits: seq<string>, communicationStyle: string, context: string)
    ensures Contains(SystemPromptHead(name, title, description, traits, communicationStyle, context),
      TraitsDescription(traits))
  {
    ContainsInfix(CharacterIntro(name, title, description), TraitsDescription(traits),
      CharacterOutro(name, communicationStyle, context));
  }

  /** The hidden-objectives section lists the objectives. */
  lemma TailContainsObjectives(scenario: Scenario)
    ensures Contains(SystemPromptTail(scenario), ObjectivesList(scenario.objectives))
  {
    ContainsInfix(ObjectivesIntro, ObjectivesList(scenario.objectives), ClosingInstructions);
  }

  /** Text found in the first of three pieces is found in the three put together. */
  lemma ContainsInFirst(a: string, b: string, c: string, x: string)
    requires Contains(a, x)
    ensures Contains(a + b + c, x)
  {
    ContainsExtendRight(a, b + c, x);
    assert a + b + c == a + (b + c);
  }

  /** Text found in the last of three pieces is found in the three put together. */
  lemma ContainsInLast(a: string, b: string, c: string, x: string)
    requires Contains(c, x)
    ensures Contains(a + b + c, x)
  {
    ContainsExtendLeft(a + b, c, x);
  }

  /** The system prompt carries the joined personality traits. */
  lemma SystemPromptMentionsTraits(persona: Persona, scenario: Scenario)
    ensures Contains(BuildSystemPrompt(persona, scenario), TraitsDescription(persona.personalityTraits))
  {
    HeadContainsTraits(persona.name, persona.title, persona.description,
      persona.personalityTraits, persona.communicationStyle, scenario.context);
    ContainsInFirst(SystemPromptHead(persona.name, persona.title, persona.description,
      persona.personalityTraits, persona.communicationStyle, scenario.context), RulesSection(persona.customQa),
      SystemPromptTail(scenario), TraitsDescription(persona.personalityTraits));
  }

  /** The system prompt carries the numbered objectives. */
  lemma SystemPromptMentionsObjectives(persona: Persona, scenario: Scenario)
    ensures Contains(BuildSystemPrompt(persona, scenario), ObjectivesList(scenario.objectives))
  {
    var objectives := ObjectivesList(scenario.objectives);
    TailContainsObjectives(scenario);
    ContainsInLast(SystemPromptHead(persona.name, persona.title, persona.description,
      persona.personalityTraits, persona.communicationStyle, scenario.context), RulesSection(persona.customQa),
      SystemPromptTail(scenario), objectives);
  }

  /** A persona with rules has its rules block in the system prompt. */
  lemma SystemPromptMentionsRules(persona: Persona, scenario: Scenario)
    requires persona.customQa != []
    ensures Contains(BuildSystemPrompt(persona, scenario), RulesSection(persona.customQa))
  {
    ContainsInfix(SystemPromptHead(persona.name, persona.title, persona.description,
      persona.personalityTraits, persona.communicationStyle, scenario.context), RulesSection(persona.customQa),
      SystemPromptTail(scenario));
  }

  /** Everything before the objectives. */
  function AnalysisPromptHead(scenario: Scenario): string
  {
    "Analyze this workplace conversation practice session.\n\n" +
    "## Scenario\n" +
    "**Title:** " + scenario.title + "\n" +
    "**Context:** " + scenario.context + "\n\n" +
    "## User's Objectives\n"
  }

  /** Between the objectives and the transcript. */
  const AnalysisPromptMiddle: string := "\n\n## Conversation\n"

  /** The requested JSON shape and the scoring criteria. */
  const AnalysisPromptTail: string :=
    "\n\n## Analysis Required\n" +
    "Provide a JSON response with this exact structure:\n" +
    "{\n" +
    "  \"overall_score\": <0-100>,\n" +
    "  \"clarity_score\": <0-100>,\n" +
    "  \"empathy_score\": <0-100>,\n" +
    "  \"assertiveness_score\": <0-100>,\n" +
    "  \"professionalism_score\": <0-100>,\n" +
    "  \"strengths\": [\"strength 1\", \"strength 2\", \"strength 3\"],\n" +
    "  \"improvements\": [\"improvement 1\", \"improvement 2\", \"improvement 3\"],\n" +
    "  \"summary\": \"2-3 sentence summary of how they did\"\n" +
    "}\n\n" +
    "## Scoring Criteria\n" +
    "- **Overall:** How well did they achieve their objectives?\n" +
    "- **Clarity:** Were their points communicated clearly?\n" +
    "- **Empathy:** Did they acknowledge the other person's perspective?\n" +
    "- **Assertiveness:** Did they advocate for themselves appropriately?\n" +
    "- **Professionalism:** Did they maintain professional tone and boundaries?\n\n" +
    "Be constructive but honest. This is a learning tool.\n\n" +
    "Respond ONLY with the JSON object, no other text."

  function BuildAnalysisPrompt(scenario: Scenario, messages: seq<Message>): string
  {
    AnalysisPromptHead(scenario) + ObjectivesList(scenario.objectives) +
    (AnalysisPromptMiddle + ConversationText(messages) + AnalysisPromptTail)
  }

  /** The analysis prompt carries the objectives and the whole transcript. */
  lemma AnalysisPromptMentions(scenario: Scenario, messages: seq<Message>)
    ensures Contains(BuildAnalysisPrompt(scenario, messages), ObjectivesList(scenario.objectives))
    ensures Contains(BuildAnalysisPrompt(scenario, messages), ConversationText(messages))
  {
    var objectives := ObjectivesList(scenario.objectives);
    var conversation := ConversationText(messages);
    var rest := AnalysisPromptMiddle + conversation + AnalysisPromptTail;
    ContainsInfix(AnalysisPromptHead(scenario), objectives, rest);
    ContainsInfix(AnalysisPromptMiddle, conversation, AnalysisPromptTail);
    ContainsInLast(AnalysisPromptHead(scenario), objectives, rest, conversation);
  }

  /** A system message sent later does not change what is analysed. */
  lemma SystemMessagesDoNotChangeAnalysis(scenario: Scenario, messages: seq<Message>, m: Message)
    requires m.role == "system"
    ensures BuildAnalysisPrompt(scenario, messages + [m]) == BuildAnalysisPrompt(scenario, messages)
  {
    TranscriptAppend(messages, m);
  }
}
