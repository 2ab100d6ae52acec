/** The in-memory conversation memory of the chat service (back/ai_service.py):
    one bounded history per chat mode, the message list sent to the model, the
    language guess and the choice of system prompt. The model client and the
    database writes of `get_response` are not part of this model. */
module Conversation {
  import opened Common
  import opened Strings

  /** `ChatMode` of back/models.py; `Value` is the enum's string value. */
  datatype ChatMode = Support | Analysis | Practice {
    function Value(): string {
      match this
      case Support => "support"
      case Analysis => "analysis"
      case Practice => "practice"
    }
  }

  const KeyPrefix: string := "conversation_"

  /** `_get_conversation_key`. */
  function ConversationKey(mode: ChatMode): (k: string)
    ensures |k| > |KeyPrefix| && k[..|KeyPrefix|] == KeyPrefix && k[|KeyPrefix|..] == mode.Value()
  {
    KeyPrefix + mode.Value()
  }

  /** Distinct modes never share a history. */
  lemma ConversationKeyInjective(m1: ChatMode, m2: ChatMode)
    ensures ConversationKey(m1) == ConversationKey(m2) <==> m1 == m2
  {
    if ConversationKey(m1) == ConversationKey(m2) {
      assert m1.Value() == ConversationKey(m1)[|KeyPrefix|..];
      assert m1.Value()[0] == m2.Value()[0];
    }
  }

  /** The system prompts of back/prompts.py, one per mode and language. Their
      texts are not part of this model; a prompt is known by its constant. */
  datatype Prompt = Prompt(mode: ChatMode, russian: bool) {
    function ConstantName(): string {
      match mode
      case Support => if russian then "SUPPORT_MODE_PROMPT_RU" else "SUPPORT_MODE_PROMPT_EN"
      case Analysis => if russian then "ANALYSIS_MODE_PROMPT_RU" else "ANALYSIS_MODE_PROMPT_EN"
      case Practice => if russian then "PRACTICE_MODE_PROMPT_RU" else "PRACTICE_MODE_PROMPT_EN"
    }
  }

  /** `_get_system_prompt`: the Russian table exactly for "ru", the English table
      for any other language; every mode has an entry, so the default of
      `prompts.get` is never taken. */
  function SystemPrompt(mode: ChatMode, language: string): (p: Prompt)
    ensures p.mode == mode
    ensures p.russian <==> language == "ru"
  {
    if language == "ru" then Prompt(mode, true) else Prompt(mode, false)
  }

  /** The six prompts are pairwise distinct constants. */
  lemma SystemPromptsDistinct(m1: ChatMode, l1: string, m2: ChatMode, l2: string)
    requires m1 != m2 || (l1 == "ru") != (l2 == "ru")
    ensures SystemPrompt(m1, l1).ConstantName() != SystemPrompt(m2, l2).ConstantName()
  {
    var n1, n2 := SystemPrompt(m1, l1).ConstantName(), SystemPrompt(m2, l2).ConstantName();
    if m1 != m2 {
      assert n1[0] != n2[0];
    } else {
      assert n1[|n1| - 1] != n2[|n2| - 1];
    }
  }

  datatype Message = Message(role: string, content: string)

  const HistoryLimit: nat := 20

  /** The history of `key` in `history`, empty when there is none. */
  function Lookup(history: map<string, seq<Message>>, key: string): seq<Message>
  {
    if key in history then history[key] else []
  }

  /** The trimming of `_add_to_history`: only the last 20 messages are kept. */
  function KeepLast(h: seq<Message>): (r: seq<Message>)
    ensures |r| == Min(HistoryLimit, |h|)
    ensures r == h[|h| - |r|..]
  {
    if |h| > HistoryLimit then h[|h| - HistoryLimit..] else h
  }

  /** The history map after `_add_to_history(mode, role, content)`. */
  function WithMessage(history: map<string, seq<Message>>, mode: ChatMode, m: Message): map<string, seq<Message>>
  {
    Appended(history, ConversationKey(mode), m)
  }

  function Appended(history: map<string, seq<Message>>, key: string, m: Message): map<string, seq<Message>>
  {
    history[key := KeepLast(Lookup(history, key) + [m])]
  }

  /** After adding, the mode's history is the last min(20, n + 1) messages of the
      old history followed by the new one. */
  lemma WithMessageKeepsLast(history: map<string, seq<Message>>, mode: ChatMode, m: Message)
    ensures var h := Lookup(history, ConversationKey(mode)) + [m];
      var r := Lookup(WithMessage(history, mode, m), ConversationKey(mode));
      |r| == Min(HistoryLimit, |h|) && r == h[|h| - |r|..] && r[|r| - 1] == m
  {
    var h := Lookup(history, ConversationKey(mode)) + [m];
    assert Lookup(WithMessage(history, mode, m), ConversationKey(mode)) == KeepLast(h);
  }

  /** Every other key is untouched. */
  lemma WithMessageKeepsOtherKeys(history: map<string, seq<Message>>, mode: ChatMode, m: Message, k: string)
    requires k != ConversationKey(mode)
    ensures Lookup(WithMessage(history, mode, m), k) == Lookup(history, k)
  {
    var key := ConversationKey(mode);
    var v := KeepLast(Lookup(history, key) + [m]);
    assert WithMessage(history, mode, m) == history[key := v];
    assert (k in history[key := v]) == (k in history);
  }

  /** So every other mode's history is untouched. */
  lemma WithMessageKeepsOtherModes(history: map<string, seq<Message>>, mode: ChatMode, m: Message, other: ChatMode)
    requires other != mode
    ensures Lookup(WithMessage(history, mode, m), ConversationKey(other)) == Lookup(history, ConversationKey(other))
  {
    ConversationKeyInjective(other, mode);
    WithMessageKeepsOtherKeys(history, mode, m, ConversationKey(other));
  }

  /** Histories bounded by 20 stay bounded by 20. */
  lemma WithMessageBounded(history: map<string, seq<Message>>, mode: ChatMode, m: Message)
    requires forall k :: k in history ==> |history[k]| <= HistoryLimit
    ensures forall k :: k in WithMessage(history, mode, m) ==> |WithMessage(history, mode, m)[k]| <= HistoryLimit
  {
    AppendedBounded(history, ConversationKey(mode), m);
  }

  lemma AppendedBounded(history: map<string, seq<Message>>, key: string, m: Message)
    requires forall k :: k in history ==> |history[k]| <= HistoryLimit
    ensures forall k :: k in Appended(history, key, m) ==> |Appended(history, key, m)[k]| <= HistoryLimit
  {
    var v := KeepLast(Lookup(history, key) + [m]);
    var r := Appended(history, key, m);
    assert |v| <= HistoryLimit;
    assert r == history[key := v];
    forall k | k in r ensures |r[k]| <= HistoryLimit {
      if k == key {
        assert r[k] == v;
      } else {
        assert r[k] == history[k];
      }
    }
  }

  /** Appending below the limit drops nothing. */
  lemma WithMessageBelowLimit(history: map<string, seq<Message>>, mode: ChatMode, m: Message)
    requires |Lookup(history, ConversationKey(mode))| < HistoryLimit
    ensures Lookup(WithMessage(history, mode, m), ConversationKey(mode)) == Lookup(history, ConversationKey(mode)) + [m]
  {
  }

  /** The history map after `clear_conversation_history(mode)`; `None` clears all. */
  function Cleared(history: map<string, seq<Message>>, mode: Option<ChatMode>): map<string, seq<Message>>
  {
    match mode
    case None => map[]
    case Some(md) => history - {ConversationKey(md)}
  }

  /** Clearing one mode removes only its entry and is a no-op when it is absent;
      clearing without a mode leaves nothing. */
  lemma ClearedOnlyThatMode(history: map<string, seq<Message>>, mode: Option<ChatMode>)
    ensures mode.None? ==> Cleared(history, mode) == map[]
    ensures mode.Some? ==> ConversationKey(mode.value) !in Cleared(history, mode)
    ensures mode.Some? ==> forall k :: k != ConversationKey(mode.value) ==>
      (k in Cleared(history, mode) <==> k in history) && Lookup(Cleared(history, mode), k) == Lookup(history, k)
    ensures mode.Some? && ConversationKey(mode.value) !in history ==> Cleared(history, mode) == history
  {
  }

  /** The list `_get_conversation_messages` sends: the system prompt, the stored
      history and the new user message. */
  function Assembled(history: map<string, seq<Message>>, mode: ChatMode, userMessage: string, language: string): seq<Message>
  {
    [Message("system", SystemPrompt(mode, language).ConstantName())]
      + Lookup(history, ConversationKey(mode)) + [Message("user", userMessage)]
  }

  /** The per-mode histories of one `AIService`. */
  class ConversationMemory {
    var history: map<string, seq<Message>>

    constructor ()
      ensures history == map[]
    {
      history := map[];
    }

    function HistoryOf(mode: ChatMode): seq<Message>
      reads this
    {
      Lookup(history, ConversationKey(mode))
    }

    /** `_add_to_history`. */
    method AddToHistory(mode: ChatMode, role: string, content: string)
      modifies this
      ensures history == WithMessage(old(history), mode, Message(role, content))
    {
      var key := ConversationKey(mode);
      if key !in history {
        history := history[key := []];
      }
      history := history[key := history[key] + [Message(role, content)]];
      if |history[key]| > 20 {
        history := history[key := history[key][|history[key]| - 20..]];
      }
    }

    /** `_get_conversation_messages`: leaves the history as it is and returns
        two messages more than the mode's history holds, the system prompt first,
        the user message last. */
    method ConversationMessages(mode: ChatMode, userMessage: string, language: string)
      returns (messages: seq<Message>)
      ensures messages == Assembled(history, mode, userMessage, language)
      ensures |messages| == |HistoryOf(mode)| + 2
      ensures messages[0].role == "system" && messages[|messages| - 1] == Message("user", userMessage)
      ensures messages[1..|messages| - 1] == HistoryOf(mode)
    {
      var key := ConversationKey(mode);
      messages := [Message("system", SystemPrompt(mode, language).ConstantName())];
      if key in history {
        messages := messages + history[key];
      }
      messages := messages + [Message("user", userMessage)];
    }

    /** `clear_conversation_history`. */
    method ClearHistory(mode: Option<ChatMode>)
      modifies this
      ensures history == Cleared(old(history), mode)
    {
      match mode {
        case Some(md) =>
          var key := ConversationKey(md);
          if key in history {
            history := history - {key};
          }
        case None =>
          history := map[];
      }
    }

    /** The message bookkeeping of `get_response` as written: the user message is
        added to the history and then appended once more by the assembly. */
    method PrepareTurnAsWritten(mode: ChatMode, message: string, language: string)
      returns (messages: seq<Message>)
      modifies this
      ensures history == WithMessage(old(history), mode, Message("user", message))
      ensures |messages| >= 3
      ensures messages[|messages| - 2] == messages[|messages| - 1] == Message("user", message)
    {
      AddToHistory(mode, "user", message);
      WithMessageKeepsLast(old(history), mode, Message("user", message));
      messages := ConversationMessages(mode, message, language);
    }

    /** The same bookkeeping with the model seeing the message once: the list is
        assembled from the earlier history, then the message is stored. */
    method PrepareTurn(mode: ChatMode, message: string, language: string)
      returns (messages: seq<Message>)
      modifies this
      ensures history == WithMessage(old(history), mode, Message("user", message))
      ensures messages == Assembled(old(history), mode, message, language)
      ensures messages[1..|messages| - 1] == Lookup(old(history), ConversationKey(mode))
    {
      messages := ConversationMessages(mode, message, language);
      AddToHistory(mode, "user", message);
    }
  }

  /** The history that `PrepareTurnAsWritten` leaves ends with the user message,
      so the assembled list holds it twice in a row, whatever the earlier history. */
  lemma AsWrittenSendsMessageTwice(history: map<string, seq<Message>>, mode: ChatMode, message: string, language: string)
    ensures var msgs := Assembled(WithMessage(history, mode, Message("user", message)), mode, message, language);
      |msgs| >= 3 && msgs[|msgs| - 2] == msgs[|msgs| - 1] == Message("user", message)
  {
    WithMessageKeepsLast(history, mode, Message("user", message));
  }

  /** Assembled before storing, the message appears once at the end, after the
      earlier history exactly. */
  lemma PreparedTurnSendsMessageOnce(history: map<string, seq<Message>>, mode: ChatMode, message: string, language: string)
    requires Message("user", message) !in Lookup(history, ConversationKey(mode))
    ensures var msgs := Assembled(history, mode, message, language);
      multiset(msgs)[Message("user", message)] == 1
  {
    var h := Lookup(history, ConversationKey(mode));
    var s := Message("system", SystemPrompt(mode, language).ConstantName());
    var u := Message("user", message);
    assert Assembled(history, mode, message, language) == [s] + h + [u];
    assert multiset(h)[u] == 0;
  }

  /** `char.isalpha() and ord(char) < 128`. */
  predicate IsAsciiLetter(c: char) { ('A' <= c <= 'Z') || ('a' <= c <= 'z') }

  /** `sum(1 for char in s if p(char))`. */
  function Count(s: string, p: char -> bool): (n: nat)
    ensures n <= |s|
  {
    if s == [] then 0 else Count(s[..|s| - 1], p) + (if p(s[|s| - 1]) then 1 else 0)
  }

  lemma {:induction false} CountAppend(a: string, b: string, p: char -> bool)
    decreases |b|
    ensures Count(a + b, p) == Count(a, p) + Count(b, p)
  {
    if b == [] {
      assert a + b == a;
    } else {
      CountAppend(a, b[..|b| - 1], p);
      assert (a + b)[..|a + b| - 1] == a + b[..|b| - 1];
    }
  }

  /** No character is both Cyrillic and an ASCII letter. */
  lemma {:induction false} CountsDisjoint(s: string)
    decreases |s|
    ensures Count(s, IsCyrillic) + Count(s, IsAsciiLetter) <= |s|
  {
    if s != [] {
      CountsDisjoint(s[..|s| - 1]);
    }
  }

  lemma {:induction false} CountNone(s: string, p: char -> bool)
    requires forall k :: 0 <= k < |s| ==> !p(s[k])
    decreases |s|
    ensures Count(s, p) == 0
  {
    if s != [] {
      CountNone(s[..|s| - 1], p);
    }
  }

  /** `_detect_language`. */
  function DetectLanguage(message: string): (r: string)
    ensures r == "ru" || r == "en"
    ensures r == "ru" <==>
      Count(message, IsCyrillic) > Count(message, IsAsciiLetter) && Count(message, IsCyrillic) > 0
  {
    var cyrillic := Count(message, IsCyrillic);
    var latin := Count(message, IsAsciiLetter);
    if cyrillic > latin && cyrillic > 0 then "ru" else "en"
  }

  /** Characters that are neither Cyrillic nor ASCII letters (digits, spaces,
      punctuation, other scripts) never change the guess. */
  lemma DetectLanguageIgnoresOthers(message: string, extra: string)
    requires forall k :: 0 <= k < |extra| ==> !IsCyrillic(extra[k]) && !IsAsciiLetter(extra[k])
    ensures DetectLanguage(message + extra) == DetectLanguage(message)
  {
    CountAppend(message, extra, IsCyrillic);
    CountAppend(message, extra, IsAsciiLetter);
    CountNone(extra, IsCyrillic);
    CountNone(extra, IsAsciiLetter);
  }

  /** A text of Cyrillic letters only is Russian, one without any is English. */
  lemma DetectLanguageByScript(message: string)
    ensures (|message| > 0 && forall k :: 0 <= k < |message| ==> IsCyrillic(message[k])) ==>
      DetectLanguage(message) == "ru"
    ensures (forall k :: 0 <= k < |message| ==> !IsCyrillic(message[k])) ==> DetectLanguage(message) == "en"
  {
    if forall k :: 0 <= k < |message| ==> IsCyrillic(message[k]) {
      CountNone(message, IsAsciiLetter);
      CountsAll(message);
    }
    if forall k :: 0 <= k < |message| ==> !IsCyrillic(message[k]) {
      CountNone(message, IsCyrillic);
    }
  }

  lemma {:induction false} CountsAll(s: string)
    requires forall k :: 0 <= k < |s| ==> IsCyrillic(s[k])
    decreases |s|
    ensures Count(s, IsCyrillic) == |s|
  {
    if s != [] {
      CountsAll(s[..|s| - 1]);
    }
  }

  /** The language choice at the start of `get_response`: a requested "ru" is
      kept, any other request is replaced by the guess from the message. */
  function EffectiveLanguage(requested: string, message: string): (r: string)
    ensures r == "ru" || r == "en"
    ensures requested == "ru" ==> r == "ru"
    ensures requested != "ru" ==> r == DetectLanguage(message)
  {
    var detected := DetectLanguage(message);
    if requested == "ru" then requested else detected
  }

  /** An explicit English request does not stick: a Cyrillic message turns it
      into Russian. */
  lemma EnglishRequestFollowsMessage(message: string)
    requires |message| > 0 && forall k :: 0 <= k < |message| ==> IsCyrillic(message[k])
    ensures EffectiveLanguage("en", message) == "ru"
  {
    DetectLanguageByScript(message);
  }
}
