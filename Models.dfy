/** The chat state of app/models.py: the two preset registries (response style
    and persona) and `ChatSession`, a rolling message window of at most
    `context_size` messages together with the selected style and persona. */
module Models {

  /** One chat message, `{"role": ..., "content": ...}`. */
  datatype Message = Message(role: string, content: string)

  /** One registry entry: display name, description, the instruction injected
      into the system prompt, and the confirmation shown after a change. */
  datatype Preset = Preset(name: string, description: string, instruction: string, confirmation: string)

  /** `AI_STYLE_SETTINGS`: response-length presets keyed by `concise`, `normal`, `detailed`. */
  const AiStyleSettings: map<string, Preset> := map[
    "concise" := Preset(
      "짧게",
      "2문장 이하로 간결하고 핵심만 요약",
      "2문장 이하로 간결하게 핵심만 요약해서 답변하세요. 절대로 2문장을 넘기지 마세요. 가능하면 1문장으로 답변하되, 꼭 필요한 경우에만 2문장을 사용하세요.",
      "앞으로는 핵심 내용만 간단히 답변드리겠습니다."),
    "normal" := Preset(
      "보통",
      "6문장 이하로 평범하고 일반적인 설명",
      "6문장 이하로 평범하고 일반적인 설명을 해주세요. 핵심 내용을 중심으로 균형있게 답변하되, 최소 3문장, 최대 6문장으로 설명하세요. 너무 짧거나 길지 않게 적절한 길이를 유지하세요.",
      "앞으로는 적절한 길이로 균형있게 답변드리겠습니다."),
    "detailed" := Preset(
      "길게",
      "9문장 이상으로 상세하고 자세한 설명",
      "9문장 이상으로 상세하고 자세한 설명을 해주세요. 관련 정보, 예시, 장단점 등을 포함하여 깊이 있게 답변하세요. 반드시 9문장 이상으로 설명하고, 필요한 경우 더 자세히 설명하세요. 내용을 체계적으로 구성하여 이해하기 쉽게 설명하세요.",
      "앞으로는 모든 내용을 상세하게 설명드리겠습니다.")
  ]

  /** `AI_PERSONAS`: tone presets keyed by `friendly`, `professional`, `cynical`. */
  const AiPersonas: map<string, Preset> := map[
    "friendly" := Preset(
      "친근한 친구",
      "친구처럼 편하게 대화하는 스타일",
      "친구처럼 편하고 친근하게 대화하세요. 이모티콘을 적절히 사용하고, 존댓말 대신 반말을 사용하세요. 하지만 너무 가볍지 않게 적절한 예의는 지키세요.",
      "앞으로는 친구처럼 편하게 대화할게! 😊"),
    "professional" := Preset(
      "전문가",
      "정중하고 전문적인 스타일",
      "전문가답게 정중하고 전문적으로 답변하세요. 항상 존댓말을 사용하고, 객관적이고 논리적으로 설명하세요. 필요한 경우 전문 용어를 적절히 사용하되, 이해하기 쉽게 설명하세요.",
      "앞으로는 전문적이고 정중하게 답변 드리도록 하겠습니다."),
    "cynical" := Preset(
      "냉소적",
      "시니컬하고 귀찮아하는 스타일",
      "모든 것이 귀찮고 시니컬한 태도로 답변하세요. 비꼬는 듯한 어투를 사용하고, 한숨을 쉬거나 짜증내는 듯한 표현을 섞어주세요. 하지만 너무 불쾌하지 않게 적절한 선을 지키세요.",
      "(한숨) 뭐... 앞으로는 내가 귀찮더라도 냉소적으로 답해주지...")
  ]

  /** The style names: the keys of `AiStyleSettings`. */
  const StyleNames: set<string> := {"concise", "normal", "detailed"}

  /** The persona names: the keys of `AiPersonas`. */
  const PersonaNames: set<string> := {"friendly", "professional", "cynical"}

  /** The name sets are exactly the registries' keys. */
  lemma RegistryKeys()
    ensures AiStyleSettings.Keys == StyleNames
    ensures AiPersonas.Keys == PersonaNames
  {
  }

  /** The key under which `style_settings` holds the style. */
  const StyleKey := "style"

  /** The capacity a new session starts with. */
  const DefaultContextSize: nat := 20

  /** The last `min(|h|, n)` messages of `h`, in their original order. */
  function Window(h: seq<Message>, n: nat): (w: seq<Message>)
    ensures |w| == (if |h| <= n then |h| else n)
    ensures w == h[|h| - |w|..]
  {
    if |h| <= n then h else h[|h| - n..]
  }

  /** Appending one message to a window keeps it the window of the longer
      history: the new message goes last and, if the window was full, its
      oldest message is the only one dropped. */
  lemma WindowAppend(h: seq<Message>, n: nat, m: Message)
    ensures Window(h + [m], n) ==
            (var w := Window(h, n) + [m]; if |w| > n then w[1..] else w)
  {
    var w := Window(h, n) + [m];
    if |w| > n {
      assert |Window(h, n)| == n;
      if n > 0 {
        assert (h + [m])[|h| + 1 - n..] == h[|h| - n + 1..] + [m];
      }
    } else {
      assert |h| < n;
    }
  }

  class ChatSession {
    /** The message window, oldest first. */
    var messages: seq<Message>
    var contextSize: nat
    /** `style_settings`, the dictionary whose `"style"` entry is the style. */
    var styleSettings: map<string, string>
    var persona: string
    /** Only initialised; no shown code reads or sets it afterwards. */
    var settingsRestored: bool
    /** Every message added since construction or the last `clear`, in call order. */
    ghost var added: seq<Message>

    /** The session invariant: the window is the last `contextSize` messages
        added (so never longer than `contextSize`), and the style and persona
        are registry keys. */
    ghost predicate Valid()
      reads this
    {
      && messages == Window(added, contextSize)
      && StyleKey in styleSettings
      && styleSettings[StyleKey] in StyleNames
      && persona in PersonaNames
    }

    constructor ()
      ensures Valid()
      ensures messages == [] && added == []
      ensures contextSize == DefaultContextSize
      ensures styleSettings == map[StyleKey := "normal"]
      ensures persona == "professional"
      ensures !settingsRestored
    {
      messages := [];
      contextSize := DefaultContextSize;
      styleSettings := map[StyleKey := "normal"];
      persona := "professional";
      settingsRestored := false;
      added := [];
    }

    /** `add_message`: append `{role, content}`; when the window grows past
        `contextSize`, evict the oldest message. */
    method AddMessage(role: string, content: string)
      requires Valid()
      modifies this
      ensures Valid()
      ensures added == old(added) + [Message(role, content)]
      ensures contextSize > 0 ==> messages[|messages| - 1] == Message(role, content)
      ensures messages ==
              (var w := old(messages) + [Message(role, content)];
               if |w| > contextSize then w[1..] else w)
      ensures |messages| <= contextSize
      ensures contextSize == old(contextSize) && styleSettings == old(styleSettings)
      ensures persona == old(persona) && settingsRestored == old(settingsRestored)
    {
      WindowAppend(added, contextSize, Message(role, content));
      messages := messages + [Message(role, content)];
      added := added + [Message(role, content)];
      if |messages| > contextSize {
        messages := messages[1..];
      }
    }

    /** `get_context`: the window, which holds the last `min(n, contextSize)`
        of the `n` messages added, in call order. */
    method GetContext() returns (ctx: seq<Message>)
      requires Valid()
      ensures ctx == Window(added, contextSize)
      ensures |ctx| <= contextSize
    {
      ctx := messages;
    }

    /** `clear`: empty the window; style and persona stay. */
    method Clear()
      requires Valid()
      modifies this
      ensures Valid()
      ensures messages == [] && added == []
      ensures contextSize == old(contextSize) && styleSettings == old(styleSettings)
      ensures persona == old(persona) && settingsRestored == old(settingsRestored)
    {
      messages := [];
      added := [];
    }

    /** `update_style`: a registry key becomes the style; any other key
        changes nothing. */
    method UpdateStyle(style: string)
      requires Valid()
      modifies this
      ensures Valid()
      ensures style in AiStyleSettings ==> styleSettings == old(styleSettings)[StyleKey := style]
      ensures style !in AiStyleSettings ==> styleSettings == old(styleSettings)
      ensures messages == old(messages) && added == old(added) && contextSize == old(contextSize)
      ensures persona == old(persona) && settingsRestored == old(settingsRestored)
    {
      RegistryKeys();
      if style !in AiStyleSettings {
        return;
      }
      styleSettings := styleSettings[StyleKey := style];
    }

    /** `update_persona`: a registry key becomes the persona; any other key
        changes nothing. */
    method UpdatePersona(p: string)
      requires Valid()
      modifies this
      ensures Valid()
      ensures persona == (if p in AiPersonas then p else old(persona))
      ensures messages == old(messages) && added == old(added) && contextSize == old(contextSize)
      ensures styleSettings == old(styleSettings) && settingsRestored == old(settingsRestored)
    {
      RegistryKeys();
      if p !in AiPersonas {
        return;
      }
      persona := p;
    }

    /** `get_style`: always a key of `AiStyleSettings`. */
    function GetStyle(): (s: string)
      reads this
      requires Valid()
      ensures s in AiStyleSettings
      ensures s == styleSettings[StyleKey]
    {
      RegistryKeys();
      styleSettings[StyleKey]
    }

    /** `get_persona`: always a key of `AiPersonas`. */
    function GetPersona(): (p: string)
      reads this
      requires Valid()
      ensures p in AiPersonas
      ensures p == persona
    {
      RegistryKeys();
      persona
    }
  }

  /** A client of the class: a fresh session after a run of `add_message`
      calls holds exactly the last `min(|ms|, 20)` of them. */
  method AddAll(ms: seq<Message>) returns (s: ChatSession)
    ensures fresh(s) && s.Valid()
    ensures s.messages == Window(ms, DefaultContextSize)
    ensures s.styleSettings[StyleKey] == "normal" && s.persona == "professional"
  {
    s := new ChatSession();
    ghost var style := s.styleSettings;
    var i := 0;
    while i < |ms|
      invariant 0 <= i <= |ms|
      invariant fresh(s) && s.Valid()
      invariant s.added == ms[..i] && s.contextSize == DefaultContextSize
      invariant s.styleSettings == style && s.persona == "professional"
    {
      s.AddMessage(ms[i].role, ms[i].content);
      assert ms[..i + 1] == ms[..i] + [ms[i]];
      i := i + 1;
    }
    assert ms[..i] == ms;
  }
}
