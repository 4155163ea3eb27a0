/**
 * The query pipeline (`CartridgeSelectorService`): list the cartridges,
 * choose one (the caller's forced choice or the classifier's), resolve it in
 * the store, activate it, generate a response against it and the recent
 * messages, and consolidate the turn into its memory. The classifier's and
 * the responder's replies are inputs; the method also returns the prompt and
 * the message history it would have sent them.
 */
module CartridgeSelector {
  import opened Wrappers
  import opened Schema
  import Storage
  import OpenRouter
  import DeepSeek
  import opened Consolidation

  const ForcedScore := 100
  const ManualReasoning := "Cartridge was manually selected by user"
  /** How many recent messages are handed to the responder. */
  const RecentMessageCount := 20

  datatype QueryError =
    | NoCartridgesAvailable
    | ForcedCartridgeNotFound(id: int)
    | SelectedCartridgeNotFound
    | ResponderFailed(error: DeepSeek.ResponderError)

  datatype QueryResult = QueryResult(selection: SelectionResult, response: string, tokenCount: nat, cost: string)

  /** `if (forceCartridgeId)`: an absent id and the id 0 both mean "not
      forced". */
  function IsForced(force: Option<int>): (forced: bool)
    ensures force == None || force == Some(0) ==> !forced
    ensures force.Some? && force.value != 0 ==> forced
  {
    force.Some? && force.value != 0
  }

  /** The selection step of `processQuery` over the listed cartridges. */
  function Select(cartridges: seq<Cartridge>, force: Option<int>, reply: OpenRouter.ClassifierReply): (r: Result<SelectionResult, QueryError>)
    ensures |cartridges| == 0 ==> r == Failure(NoCartridgesAvailable)
    ensures |cartridges| > 0 && IsForced(force) ==>
      (r.Success? <==> exists c :: c in cartridges && c.id == force.value)
    ensures |cartridges| > 0 && IsForced(force) && r.Failure? ==> r.error == ForcedCartridgeNotFound(force.value)
    ensures IsForced(force) && r.Success? ==> r.value == SelectionResult(force.value, ForcedScore, ManualReasoning)
    ensures |cartridges| > 0 && !IsForced(force) ==>
      r.Success? && OpenRouter.SelectCartridge(cartridges, reply) == Success(r.value)
    ensures r.Success? ==> ValidSelection(r.value)
  {
    if |cartridges| == 0 then Failure(NoCartridgesAvailable)
    else if IsForced(force) then
      if exists c :: c in cartridges && c.id == force.value
      then Success(SelectionResult(force.value, ForcedScore, ManualReasoning))
      else Failure(ForcedCartridgeNotFound(force.value))
    else
      var s := OpenRouter.SelectCartridge(cartridges, reply);
      Success(s.value)
  }

  /** A forced selection never depends on the classifier's reply. */
  lemma ForcedSelectionIgnoresClassifier(cartridges: seq<Cartridge>, force: Option<int>,
                                         reply1: OpenRouter.ClassifierReply, reply2: OpenRouter.ClassifierReply)
    requires IsForced(force)
    ensures Select(cartridges, force, reply1) == Select(cartridges, force, reply2)
  {
  }

  /** Forcing the id 0 is the same as forcing nothing. */
  lemma ZeroForceIsAutomatic(cartridges: seq<Cartridge>, reply: OpenRouter.ClassifierReply)
    ensures Select(cartridges, Some(0), reply) == Select(cartridges, None, reply)
  {
  }

  /** `updateCartridgeMemory`: sends the consolidation update built from the
      cartridge as it was read to the store, stamped with the clock. An
      unknown id changes nothing. */
  method UpdateCartridgeMemory(store: Storage.MemStorage, cartridge: Cartridge, userMessage: string,
                               aiResponse: string, clock: Clock)
    requires store.Valid()
    modifies store`cartridges
    ensures store.Valid()
    ensures cartridge.id in old(store.cartridges) ==>
      store.cartridges == old(store.cartridges)[cartridge.id :=
        ApplyUpdate(old(store.cartridges)[cartridge.id],
                    MemoryUpdate(cartridge, userMessage, aiResponse, clock), clock.millis)]
    ensures cartridge.id !in old(store.cartridges) ==> store.cartridges == old(store.cartridges)
    ensures Storage.ActiveIds(store.cartridges) == old(Storage.ActiveIds(store.cartridges))
  {
    var _ := store.UpdateCartridge(cartridge.id, MemoryUpdate(cartridge, userMessage, aiResponse, clock), clock.millis);
  }

  /** `processQuery`. Every error before activation leaves the store as it
      was; a responder error comes after activation, so the selected
      cartridge stays activated; on success that cartridge is the only
      active one and its memory holds the new turn. */
  method ProcessQuery(store: Storage.MemStorage, message: string, force: Option<int>,
                      classifierReply: OpenRouter.ClassifierReply,
                      completion: Result<DeepSeek.Completion, DeepSeek.ResponderError>,
                      clock: Clock)
    returns (r: Result<QueryResult, QueryError>,
             prompt: Option<OpenRouter.SelectionPrompt>,
             history: Option<seq<DeepSeek.ChatMessage>>)
    requires store.Valid()
    modifies store`cartridges
    ensures store.Valid()
    ensures var listed := old(store.GetCartridges());
      prompt == (if |listed| > 0 && !IsForced(force)
                 then Some(OpenRouter.BuildSelectionPrompt(message, listed)) else None)
    ensures var sel := Select(old(store.GetCartridges()), force, classifierReply);
      sel.Failure? ==> r == Failure(sel.error) && history.None? && store.cartridges == old(store.cartridges)
    ensures var sel := Select(old(store.GetCartridges()), force, classifierReply);
      sel.Success? && sel.value.selectedCartridgeId !in old(store.cartridges) ==>
        r == Failure(SelectedCartridgeNotFound) && history.None? && store.cartridges == old(store.cartridges)
    ensures var sel := Select(old(store.GetCartridges()), force, classifierReply);
      sel.Success? && sel.value.selectedCartridgeId in old(store.cartridges) ==>
        var id := sel.value.selectedCartridgeId;
        var activated := Storage.Activated(old(store.cartridges), id);
        var reply := DeepSeek.ReadCompletion(completion);
        && history == Some(DeepSeek.MessageHistory(message, old(store.cartridges)[id],
                                                   old(store.GetMessages(RecentMessageCount))))
        && (reply.Failure? ==> r == Failure(ResponderFailed(reply.error)) && store.cartridges == activated)
        && (reply.Success? ==>
              && r == Success(QueryResult(sel.value, reply.value.content, reply.value.tokenCount, reply.value.cost))
              && store.cartridges == activated[id := ApplyUpdate(activated[id],
                   MemoryUpdate(old(store.cartridges)[id], message, reply.value.content, clock), clock.millis)])
    ensures r.Success? ==> ValidSelection(r.value.selection)
    ensures r.Success? ==> Storage.ActiveIds(store.cartridges) == {r.value.selection.selectedCartridgeId}
  {
    history := None;
    var cartridges := store.GetCartridges();
    prompt := if |cartridges| > 0 && !IsForced(force)
              then Some(OpenRouter.BuildSelectionPrompt(message, cartridges)) else None;
    var chosen := Select(cartridges, force, classifierReply);
    if chosen.Failure? {
      r := Failure(chosen.error);
      return;
    }
    var selection := chosen.value;
    var selected := store.GetCartridge(selection.selectedCartridgeId);
    if selected.None? {
      r := Failure(SelectedCartridgeNotFound);
      return;
    }
    var h;
    r, h := Respond(store, selection, selected.value, message, completion, clock);
    history := Some(h);
  }

  /** The steps of `processQuery` after the selected cartridge has been read:
      activate it, build the history from the 20 most recent messages, read
      the responder's reply and, when there is one, consolidate the turn. */
  method Respond(store: Storage.MemStorage, selection: SelectionResult, cartridge: Cartridge, message: string,
                 completion: Result<DeepSeek.Completion, DeepSeek.ResponderError>, clock: Clock)
    returns (r: Result<QueryResult, QueryError>, history: seq<DeepSeek.ChatMessage>)
    requires store.Valid()
    requires selection.selectedCartridgeId == cartridge.id
    requires cartridge.id in store.cartridges && store.cartridges[cartridge.id] == cartridge
    modifies store`cartridges
    ensures store.Valid()
    ensures history == DeepSeek.MessageHistory(message, cartridge, old(store.GetMessages(RecentMessageCount)))
    ensures var activated := Storage.Activated(old(store.cartridges), cartridge.id);
      var reply := DeepSeek.ReadCompletion(completion);
      && (reply.Failure? ==> r == Failure(ResponderFailed(reply.error)) && store.cartridges == activated)
      && (reply.Success? ==>
            && r == Success(QueryResult(selection, reply.value.content, reply.value.tokenCount, reply.value.cost))
            && store.cartridges == activated[cartridge.id := ApplyUpdate(activated[cartridge.id],
                 MemoryUpdate(cartridge, message, reply.value.content, clock), clock.millis)])
    ensures r.Success? ==> Storage.ActiveIds(store.cartridges) == {cartridge.id}
  {
    var recent := ActivateAndRecall(store, cartridge.id);
    ghost var activated := store.cartridges;
    assert cartridge.id in activated && Storage.ActiveIds(activated) == {cartridge.id};
    history := DeepSeek.BuildMessageHistory(message, cartridge, recent);
    var reply := DeepSeek.ReadCompletion(completion);
    if reply.Failure? {
      r := Failure(ResponderFailed(reply.error));
      return;
    }
    var content := reply.value.content;
    UpdateCartridgeMemory(store, cartridge, message, content, clock);
    assert store.cartridges == activated[cartridge.id := ApplyUpdate(activated[cartridge.id],
      MemoryUpdate(cartridge, message, content, clock), clock.millis)];
    r := Success(QueryResult(selection, reply.value.content, reply.value.tokenCount, reply.value.cost));
  }

  /** Activates the cartridge, then reads the recent messages, which the
      activation does not touch. */
  method ActivateAndRecall(store: Storage.MemStorage, id: int) returns (recent: seq<Message>)
    requires store.Valid()
    modifies store`cartridges
    ensures store.Valid()
    ensures store.cartridges == Storage.Activated(old(store.cartridges), id)
    ensures recent == old(store.GetMessages(RecentMessageCount))
  {
    store.SetActiveCartridge(id);
    recent := store.GetMessages(RecentMessageCount);
  }
}
