/**
 * The record shapes shared by server and client: cartridges with their three
 * memory compartments and metadata, chat messages, users, the insert and
 * update payloads the store accepts, and the two request/result shapes the
 * API validates. Timestamps are milliseconds since the epoch.
 */
module Schema {
  import opened Wrappers

  datatype Role = UserRole | AssistantRole | SystemRole

  /** One consolidated turn of episodic memory. */
  datatype Conversation = Conversation(
    id: string,
    timestamp: string,
    topic: string,
    contextEmbedding: Option<seq<real>>,
    keyConcepts: seq<string>,
    outcomes: seq<string>)

  datatype EpisodicMemory = EpisodicMemory(conversations: seq<Conversation>)

  datatype Concept = Concept(
    definition: string,
    relationships: seq<string>,
    confidence: real,
    sources: seq<string>)

  datatype SemanticMemory = SemanticMemory(concepts: map<string, Concept>)

  datatype Workflow = Workflow(name: string, steps: seq<string>, successRate: real)

  datatype ProceduralMemory = ProceduralMemory(workflows: seq<Workflow>)

  datatype CartridgeMetadata = CartridgeMetadata(
    version: string,
    sizeMb: real,
    nodeCount: int,
    createdBy: Option<string>,
    tags: Option<seq<string>>)

  datatype Cartridge = Cartridge(
    id: int,
    name: string,
    description: string,
    episodicMemory: EpisodicMemory,
    semanticMemory: SemanticMemory,
    proceduralMemory: ProceduralMemory,
    metadata: CartridgeMetadata,
    isActive: bool,
    createdAt: int,
    updatedAt: int)

  datatype MessageMetadata = MessageMetadata(
    model: Option<string>,
    temperature: Option<real>,
    maxTokens: Option<int>,
    processingTime: Option<int>)

  datatype Message = Message(
    id: int,
    content: string,
    role: Role,
    cartridgeId: Option<int>,
    selectedCartridgeId: Option<int>,
    matchScore: Option<int>,
    tokenCount: Option<int>,
    cost: Option<string>,
    metadata: Option<MessageMetadata>,
    createdAt: int)

  datatype User = User(id: int, username: string, password: string)

  datatype InsertUser = InsertUser(username: string, password: string)

  /** A cartridge without the columns the store assigns (id, createdAt,
      updatedAt); `isActive` may be left out. The source's insert schema
      also lets the three memory compartments be left out; this model
      requires them. */
  datatype InsertCartridge = InsertCartridge(
    name: string,
    description: string,
    episodicMemory: EpisodicMemory,
    semanticMemory: SemanticMemory,
    proceduralMemory: ProceduralMemory,
    metadata: CartridgeMetadata,
    isActive: Option<bool>)

  /** The insert payload with every field optional; it has no id field. */
  datatype UpdateCartridge = UpdateCartridge(
    name: Option<string>,
    description: Option<string>,
    episodicMemory: Option<EpisodicMemory>,
    semanticMemory: Option<SemanticMemory>,
    proceduralMemory: Option<ProceduralMemory>,
    metadata: Option<CartridgeMetadata>,
    isActive: Option<bool>)

  /** A message without the columns the store assigns (id, createdAt). */
  datatype InsertMessage = InsertMessage(
    content: string,
    role: Role,
    cartridgeId: Option<int>,
    selectedCartridgeId: Option<int>,
    matchScore: Option<int>,
    tokenCount: Option<int>,
    cost: Option<string>,
    metadata: Option<MessageMetadata>)

  datatype ChatRequest = ChatRequest(message: string, forceCartridgeId: Option<int>)

  datatype SelectionResult = SelectionResult(selectedCartridgeId: int, matchScore: int, reasoning: string)

  datatype SchemaError = MessageTooShort | MatchScoreOutOfRange

  /** The cartridge the store builds from an insert payload. */
  function NewCartridge(id: int, c: InsertCartridge, now: int): (r: Cartridge)
    ensures r.id == id && r.createdAt == now && r.updatedAt == now
    ensures r.isActive == (c.isActive == Some(true))
    ensures r.name == c.name && r.description == c.description && r.metadata == c.metadata
    ensures r.episodicMemory == c.episodicMemory && r.semanticMemory == c.semanticMemory
    ensures r.proceduralMemory == c.proceduralMemory
  {
    Cartridge(id, c.name, c.description, c.episodicMemory, c.semanticMemory,
              c.proceduralMemory, c.metadata, c.isActive.GetOr(false), now, now)
  }

  /** Overlays an update on a cartridge: the id and creation time stay, the
      update time is stamped, every supplied field is written and every
      other field is left as it was. */
  function ApplyUpdate(c: Cartridge, u: UpdateCartridge, now: int): (r: Cartridge)
    ensures r.id == c.id && r.createdAt == c.createdAt && r.updatedAt == now
    ensures u.name.Some? ==> r.name == u.name.value
    ensures u.name.None? ==> r.name == c.name
    ensures u.description.Some? ==> r.description == u.description.value
    ensures u.description.None? ==> r.description == c.description
    ensures u.episodicMemory.Some? ==> r.episodicMemory == u.episodicMemory.value
    ensures u.episodicMemory.None? ==> r.episodicMemory == c.episodicMemory
    ensures u.semanticMemory.Some? ==> r.semanticMemory == u.semanticMemory.value
    ensures u.semanticMemory.None? ==> r.semanticMemory == c.semanticMemory
    ensures u.proceduralMemory.Some? ==> r.proceduralMemory == u.proceduralMemory.value
    ensures u.proceduralMemory.None? ==> r.proceduralMemory == c.proceduralMemory
    ensures u.metadata.Some? ==> r.metadata == u.metadata.value
    ensures u.metadata.None? ==> r.metadata == c.metadata
    ensures u.isActive.Some? ==> r.isActive == u.isActive.value
    ensures u.isActive.None? ==> r.isActive == c.isActive
  {
    Cartridge(
      c.id,
      u.name.GetOr(c.name),
      u.description.GetOr(c.description),
      u.episodicMemory.GetOr(c.episodicMemory),
      u.semanticMemory.GetOr(c.semanticMemory),
      u.proceduralMemory.GetOr(c.proceduralMemory),
      u.metadata.GetOr(c.metadata),
      u.isActive.GetOr(c.isActive),
      c.createdAt,
      now)
  }

  /** `chatRequestSchema.parse`: the message must have at least one character;
      the forced id is an optional number passed through as given. */
  function ParseChatRequest(message: string, forceCartridgeId: Option<int>): (r: Result<ChatRequest, SchemaError>)
    ensures r.Success? <==> |message| >= 1
    ensures r.Success? ==> r.value.message == message && r.value.forceCartridgeId == forceCartridgeId
    ensures r.Failure? ==> r.error == MessageTooShort
  {
    if |message| >= 1 then Success(ChatRequest(message, forceCartridgeId)) else Failure(MessageTooShort)
  }

  /** `cartridgeSelectionResultSchema`: the score must lie in [0, 100]. */
  predicate ValidSelection(s: SelectionResult)
  {
    0 <= s.matchScore <= 100
  }

  function ParseSelectionResult(id: int, matchScore: int, reasoning: string): (r: Result<SelectionResult, SchemaError>)
    ensures r.Success? <==> 0 <= matchScore <= 100
    ensures r.Success? ==> r.value == SelectionResult(id, matchScore, reasoning) && ValidSelection(r.value)
    ensures r.Failure? ==> r.error == MatchScoreOutOfRange
  {
    var s := SelectionResult(id, matchScore, reasoning);
    if ValidSelection(s) then Success(s) else Failure(MatchScoreOutOfRange)
  }
}
