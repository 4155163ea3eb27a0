/**
 * The response generator (`DeepSeekService`): it builds the message history
 * sent to the chat-completion model (a system prompt carrying the selected
 * cartridge's memory, the user and assistant turns among the last ten stored
 * messages, then the new user message), reads the answer and prices it. The
 * HTTP exchange is a parameter: the model receives the completion that came
 * back, or the reason there is none.
 */
module DeepSeek {
  import opened Wrappers
  import opened Schema
  import Js

  /** How many stored messages the history looks back over. */
  const HistoryWindow := 10

  /** The content of one chat message. The system prompt is a text template
      around the cartridge's name, description and the JSON of its three
      memory compartments; the model keeps exactly those parts. */
  datatype Content =
    | Text(text: string)
    | MemoryContext(name: string, description: string, episodic: EpisodicMemory,
                    semantic: SemanticMemory, procedural: ProceduralMemory)

  datatype ChatMessage = ChatMessage(role: Role, content: Content)

  /** `buildSystemPrompt`. */
  function SystemPrompt(c: Cartridge): (r: ChatMessage)
    ensures r.role == SystemRole
    ensures r.content.MemoryContext? && r.content.name == c.name && r.content.description == c.description
    ensures r.content.episodic == c.episodicMemory && r.content.semantic == c.semanticMemory
    ensures r.content.procedural == c.proceduralMemory
  {
    ChatMessage(SystemRole, MemoryContext(c.name, c.description, c.episodicMemory,
                                         c.semanticMemory, c.proceduralMemory))
  }

  predicate IsConversational(m: Message)
  {
    m.role == UserRole || m.role == AssistantRole
  }

  /** The chat message a stored user or assistant message becomes. */
  function Turn(m: Message): ChatMessage
  {
    ChatMessage(m.role, Text(m.content))
  }

  /** The chat messages the history keeps for stored messages `ms`: each
      user or assistant message, in order; system messages are dropped.
      `TurnsFilter` states that this is exactly that filter. */
  function Turns(ms: seq<Message>): (r: seq<ChatMessage>)
    ensures |r| <= |ms|
    ensures forall i :: 0 <= i < |r| ==> r[i].role == UserRole || r[i].role == AssistantRole
  {
    if ms == [] then []
    else
      var last := ms[|ms| - 1];
      Turns(ms[..|ms| - 1]) + (if IsConversational(last) then [Turn(last)] else [])
  }

  /** `Turns` is a filter: it distributes over concatenation, keeps a user
      or assistant message as its turn and drops any other message. */
  lemma {:induction false} TurnsFilter(a: seq<Message>, b: seq<Message>)
    ensures Turns(a + b) == Turns(a) + Turns(b)
    ensures |b| == 1 ==> Turns(b) == if IsConversational(b[0]) then [Turn(b[0])] else []
    decreases |b|
  {
    if b == [] {
      assert a + b == a;
      assert Turns(a) + [] == Turns(a);
    } else {
      var init, last := b[..|b| - 1], b[|b| - 1];
      TurnsFilter(a, init);
      var ab := a + b;
      assert ab[..|ab| - 1] == a + init && ab[|ab| - 1] == last;
      var t := if IsConversational(last) then [Turn(last)] else [];
      Js.AppendAssoc(Turns(a), Turns(init), t);
      if |b| == 1 {
        assert init == [];
        assert [] + t == t;
      }
    }
  }

  /** The history `buildMessageHistory` produces: the system prompt, the
      turns of the last ten stored messages, then the new user message. No
      system message appears between the first and the last entry. */
  function MessageHistory(userMessage: string, c: Cartridge, recent: seq<Message>): (r: seq<ChatMessage>)
    ensures 2 <= |r| <= HistoryWindow + 2
    ensures r[0] == SystemPrompt(c)
    ensures r[1..|r| - 1] == Turns(Js.SliceFrom(recent, -HistoryWindow))
    ensures r[|r| - 1] == ChatMessage(UserRole, Text(userMessage))
    ensures forall i :: 1 <= i < |r| - 1 ==> r[i].role != SystemRole
  {
    var turns := Turns(Js.SliceFrom(recent, -HistoryWindow));
    var r := [SystemPrompt(c)] + turns + [ChatMessage(UserRole, Text(userMessage))];
    assert r[1..|r| - 1] == turns;
    r
  }

  /** `buildMessageHistory`: starts from the system prompt, appends the
      conversational turns of the last ten messages one by one, then the new
      user message. */
  method BuildMessageHistory(userMessage: string, c: Cartridge, recent: seq<Message>) returns (r: seq<ChatMessage>)
    ensures r == MessageHistory(userMessage, c, recent)
  {
    r := [SystemPrompt(c)];
    var relevant := Js.SliceFrom(recent, -HistoryWindow);
    var i := 0;
    while i < |relevant|
      invariant 0 <= i <= |relevant|
      invariant r == [SystemPrompt(c)] + Turns(relevant[..i])
    {
      var m := relevant[i];
      assert relevant[..i + 1][..i] == relevant[..i];
      if m.role == UserRole || m.role == AssistantRole {
        r := r + [Turn(m)];
      }
      i := i + 1;
    }
    assert relevant[..i] == relevant;
    r := r + [ChatMessage(UserRole, Text(userMessage))];
  }

  // ---------------------------------------------------------------------
  // Reading the completion
  // ---------------------------------------------------------------------

  /** The parts of the completion response the service reads: the first
      choice's message content and `usage.total_tokens`, each possibly
      absent. */
  datatype Completion = Completion(content: Option<string>, totalTokens: Option<nat>)

  datatype ResponderError =
    | HttpStatus(status: int)   // the response was not ok
    | NoContent                 // the content was absent or empty

  datatype Response = Response(content: string, tokenCount: nat, cost: string)

  /** The price in millionths of a dollar of `tokenCount` tokens at
      0.000000375 dollars each, rounded to the nearest millionth as
      `toFixed(6)` does. */
  function CostMicros(tokenCount: nat): (r: nat)
    ensures 3 * tokenCount - 4 < 8 * r <= 3 * tokenCount + 4
  {
    (3 * tokenCount + 4) / 8
  }

  /** `toFixed(6)` of an amount given in millionths: the whole part, without
      leading zeros, a point and exactly six fractional digits. */
  function Fixed6(micros: nat): (r: string)
    ensures |r| >= 8 && r[|r| - 7] == '.'
    ensures forall i :: 0 <= i < |r| && i != |r| - 7 ==> '0' <= r[i] <= '9'
    ensures r[0] == '0' ==> r[1] == '.'
  {
    var whole := Js.NatToDecimal(micros / 1000000);
    var digits := Js.NatToDecimal(micros % 1000000);
    FractionDigits(micros % 1000000);
    whole + "." + Js.ZeroPad(digits, 6)
  }

  /** The fractional part of `toFixed(6)`: six digits worth `m`. */
  lemma {:induction false} FractionDigits(m: nat)
    requires m < 1000000
    ensures var frac := Js.ZeroPad(Js.NatToDecimal(m), 6);
      && |frac| == 6
      && (forall i :: 0 <= i < |frac| ==> '0' <= frac[i] <= '9')
      && Js.DecimalValue(frac) == m
  {
    var digits := Js.NatToDecimal(m);
    assert Js.Pow10(6) == 1000000;
    Js.DecimalLength(m, 6);
    Js.ZeroPadValue(digits, 6);
    Js.DecimalRoundTrip(m);
  }

  /** `calculateCost`: the price written with six fractional digits, which
      read back as the rounded price in millionths. */
  function Cost(tokenCount: nat): (r: string)
    ensures ParseFixed6(r) == Some(CostMicros(tokenCount))
  {
    Fixed6RoundTrip(CostMicros(tokenCount));
    Fixed6(CostMicros(tokenCount))
  }

  /** Reads a string of the form `Fixed6` writes back into millionths. */
  function ParseFixed6(s: string): Option<nat>
  {
    var p := Js.IndexOf(s, '.');
    if p < |s| then ParseFixed6Parts(s[..p], s[p + 1..]) else None
  }

  /** The value of a whole part and a six-digit fraction, when both are digit
      strings. */
  function ParseFixed6Parts(whole: string, frac: string): Option<nat>
  {
    if |frac| == 6
       && (forall i :: 0 <= i < |whole| ==> '0' <= whole[i] <= '9')
       && (forall i :: 0 <= i < |frac| ==> '0' <= frac[i] <= '9')
    then Some(Js.DecimalValue(whole) * 1000000 + Js.DecimalValue(frac))
    else None
  }

  /** The first point of a digit string followed by a point separates the
      two parts. */
  lemma {:induction false} ParseFixed6Split(whole: string, frac: string)
    requires forall i :: 0 <= i < |whole| ==> '0' <= whole[i] <= '9'
    ensures ParseFixed6(whole + "." + frac) == ParseFixed6Parts(whole, frac)
  {
    var s := whole + "." + frac;
    assert '.' !in whole;
    Js.IndexOfAfter(whole, '.', frac);
    assert s[..|whole|] == whole;
    assert s[|whole| + 1..] == frac;
  }

  /** `Fixed6` is read back by `ParseFixed6`. */
  lemma {:induction false} Fixed6RoundTrip(micros: nat)
    ensures ParseFixed6(Fixed6(micros)) == Some(micros)
  {
    var q, m := micros / 1000000, micros % 1000000;
    var whole := Js.NatToDecimal(q);
    var frac := Js.ZeroPad(Js.NatToDecimal(m), 6);
    FractionDigits(m);
    Js.DecimalRoundTrip(q);
    PartsRoundTrip(micros, whole, frac);
    assert Fixed6(micros) == whole + "." + frac;
  }

  /** A whole part and a six-digit fraction that denote the quotient and
      remainder of the amount by a million read back as the amount. */
  lemma {:induction false} PartsRoundTrip(micros: nat, whole: string, frac: string)
    requires forall i :: 0 <= i < |whole| ==> '0' <= whole[i] <= '9'
    requires |frac| == 6 && forall i :: 0 <= i < |frac| ==> '0' <= frac[i] <= '9'
    requires Js.DecimalValue(whole) == micros / 1000000
    requires Js.DecimalValue(frac) == micros % 1000000
    ensures ParseFixed6(whole + "." + frac) == Some(micros)
  {
    ParseFixed6Split(whole, frac);
    PartsValue(whole, frac);
    DivMod(micros, 1000000);
  }

  /** Digit strings, the second of six digits, are read as their values. */
  lemma {:induction false} PartsValue(whole: string, frac: string)
    requires forall i :: 0 <= i < |whole| ==> '0' <= whole[i] <= '9'
    requires |frac| == 6 && forall i :: 0 <= i < |frac| ==> '0' <= frac[i] <= '9'
    ensures ParseFixed6Parts(whole, frac) == Some(Js.DecimalValue(whole) * 1000000 + Js.DecimalValue(frac))
  {
  }

  lemma {:induction false} DivMod(n: nat, d: nat)
    requires d > 0
    ensures n / d * d + n % d == n
  {
  }

  /** `generateResponse` after the exchange: a failed request and an absent
      or empty content are errors, passed on to the caller; otherwise the
      token count is `total_tokens`, or 0 when absent, and the cost is
      computed from it. */
  function ReadCompletion(reply: Result<Completion, ResponderError>): (r: Result<Response, ResponderError>)
    ensures r.Success? <==> reply.Success? && reply.value.content.Some? && reply.value.content.value != ""
    ensures reply.Failure? ==> r == Failure(reply.error)
    ensures reply.Success? && r.Failure? ==> r.error == NoContent
    ensures r.Success? ==> r.value.content == reply.value.content.value
    ensures r.Success? ==> r.value.tokenCount == reply.value.totalTokens.GetOr(0)
    ensures r.Success? ==> ParseFixed6(r.value.cost) == Some(CostMicros(r.value.tokenCount))
  {
    match reply
    case Failure(e) => Failure(e)
    case Success(completion) =>
      if completion.content.None? || completion.content.value == "" then Failure(NoContent)
      else
        var tokens := completion.totalTokens.GetOr(0);
        Success(Response(completion.content.value, tokens, Cost(tokens)))
  }
}
