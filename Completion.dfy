/** app/services.py: how `generate_ai_response` builds the completion request
    (the system instruction chosen by persona, the token budget chosen by
    response length, the two-message list) and how it turns the provider's
    reply into the returned text. The provider is a function parameter. */
module Completion {
  import opened Text
  import opened Models

  /** The language model the request names. */
  const ModelName := "gpt-3.5-turbo"

  /** The instruction of `AI_PERSONAS["professional"]`. */
  const ProfessionalInstruction := AiPersonas["professional"].instruction

  /** `AI_PERSONAS.get("creative", AI_PERSONAS["professional"])["instruction"]`:
      the registry has no `creative` entry, so this falls back. */
  const CreativeInstruction :=
    (if "creative" in AiPersonas then AiPersonas["creative"] else AiPersonas["professional"]).instruction

  /** `system_messages`: three persona keys, of which only two name a registry
      entry of their own. */
  const SystemMessages: map<string, string> := map[
    "professional" := ProfessionalInstruction,
    "friendly" := AiPersonas["friendly"].instruction,
    "creative" := CreativeInstruction
  ]

  /** `max_tokens`: the token budget per response length. */
  const MaxTokensTable: map<string, nat> := map["short" := 300, "medium" := 1000, "long" := 2000]

  /** The completion request: model, messages, token budget, and the fixed
      sampling parameters 0.7 and 1.0. */
  datatype Request = Request(model: string, messages: seq<Message>, maxTokens: nat, temperature: real, topP: real)

  /** The two tables `generate_ai_response` builds: instructions for three
      persona keys, two of them distinct, and budgets for three lengths. */
  lemma Tables()
    ensures SystemMessages.Keys == {"professional", "friendly", "creative"}
    ensures SystemMessages["creative"] == SystemMessages["professional"] != SystemMessages["friendly"]
    ensures MaxTokensTable.Keys == {"short", "medium", "long"}
    ensures MaxTokensTable["short"] < MaxTokensTable["medium"] < MaxTokensTable["long"]
  {
    assert AiPersonas["friendly"].instruction != ProfessionalInstruction;
  }

  /** `system_messages.get(persona, system_messages["professional"])`: only
      `"friendly"` gets an instruction other than the professional one, so
      the registry persona `"cynical"` and every unknown persona are answered
      professionally. */
  function SystemInstruction(persona: string): (s: string)
    ensures s == (if persona == "friendly" then AiPersonas["friendly"].instruction else ProfessionalInstruction)
  {
    if persona in SystemMessages then SystemMessages[persona] else SystemMessages["professional"]
  }

  /** `max_tokens.get(response_length, max_tokens["medium"])`: 300 for
      `short`, 2000 for `long`, and the medium 1000 for every other length. */
  function MaxTokens(responseLength: string): (n: nat)
    ensures n == (if responseLength == "short" then 300 else if responseLength == "long" then 2000 else 1000)
  {
    if responseLength in MaxTokensTable then MaxTokensTable[responseLength] else MaxTokensTable["medium"]
  }

  /** The request `generate_ai_response` sends: the system instruction first,
      the user's message second and nothing else. */
  function BuildRequest(message: string, persona: string, responseLength: string): (r: Request)
    ensures |r.messages| == 2
    ensures r.messages[0] == Message("system", SystemInstruction(persona))
    ensures r.messages[1] == Message("user", message)
    ensures r.maxTokens == MaxTokens(responseLength) && r.maxTokens in MaxTokensTable.Values
    ensures r.model == ModelName && r.temperature == 0.7 && r.topP == 1.0
  {
    Request(ModelName,
            [Message("system", SystemInstruction(persona)), Message("user", message)],
            MaxTokens(responseLength), 0.7, 1.0)
  }

  /** `generate_ai_response`: the provider's reply to the request, stripped.
      `complete(request)` stands for `response.choices[0].message.content`.
      The answer is the reply between its leading and its trailing
      whitespace; it has no surrounding whitespace and is empty exactly when
      the reply is blank. */
  function GenerateAiResponse(message: string, persona: string, responseLength: string,
                              complete: Request -> string): (answer: string)
    ensures answer == [] <==> AllSpace(complete(BuildRequest(message, persona, responseLength)))
    ensures answer == [] || (!IsSpace(answer[0]) && !IsSpace(answer[|answer| - 1]))
    ensures |answer| <= |complete(BuildRequest(message, persona, responseLength))|
    ensures exists a, b :: Segment(complete(BuildRequest(message, persona, responseLength)), answer, a, b)
  {
    var reply := complete(BuildRequest(message, persona, responseLength));
    StripIsSegment(reply);
    Strip(reply)
  }

  /** The two personas with a table entry of their own get their registry
      instruction; the third registry persona, `"cynical"`, does not. */
  lemma PersonaInstructionHonoured(persona: string)
    requires persona in AiPersonas
    ensures SystemInstruction(persona) == AiPersonas[persona].instruction
            <==> persona == "friendly" || persona == "professional"
  {
    if persona == "cynical" {
      assert AiPersonas["cynical"].instruction != ProfessionalInstruction;
    }
  }

  /** `"creative"` has a table entry, but it holds the professional
      instruction, since the registry has no creative persona. */
  lemma CreativeIsProfessional()
    ensures "creative" in SystemMessages && "creative" !in AiPersonas
    ensures SystemInstruction("creative") == ProfessionalInstruction
  {
  }

  /** Every token budget is one of the three table values, and only the
      lengths `short` and `long` move it away from the medium budget. */
  lemma MaxTokensChoice(responseLength: string)
    ensures MaxTokens(responseLength) in MaxTokensTable.Values
    ensures MaxTokens(responseLength) != MaxTokensTable["medium"]
            <==> responseLength == "short" || responseLength == "long"
  {
  }

  /** The reply is only trimmed: the answer is the reply's own text, and a
      reply already without surrounding whitespace comes back unchanged. */
  lemma AnswerIsTrimmedReply(message: string, persona: string, responseLength: string,
                             complete: Request -> string)
    ensures var reply := complete(BuildRequest(message, persona, responseLength));
            var answer := GenerateAiResponse(message, persona, responseLength, complete);
            (forall k :: 0 <= k < |answer| ==> answer[k] in reply)
            && (reply == [] || (!IsSpace(reply[0]) && !IsSpace(reply[|reply| - 1])) ==> answer == reply)
  {
    var reply := complete(BuildRequest(message, persona, responseLength));
    StripKeepsCharacters(reply);
    if reply == [] || (!IsSpace(reply[0]) && !IsSpace(reply[|reply| - 1])) {
      StripOfTrimmed(reply);
    }
  }
}
