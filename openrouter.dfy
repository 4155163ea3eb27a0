/**
 * The cartridge classifier (`OpenRouterService.selectCartridge`): it asks a
 * language model which cartridge best fits the query, validates and clamps
 * the answer, and falls back to the active cartridge (or the first one)
 * whenever anything goes wrong. The HTTP exchange itself is a parameter: the
 * model receives the prompt it would send and the parsed reply, or the
 * reason there is none.
 */
module OpenRouter {
  import opened Wrappers
  import opened Schema
  import Js

  /** The JSON object the model answers with, after `JSON.parse`; a field that
      is absent is `None`. */
  datatype RawSelection = RawSelection(
    selectedCartridgeId: Option<int>,
    matchScore: Option<int>,
    reasoning: Option<string>)

  /** Why the classifier produced no usable JSON object. */
  datatype ClassifierError =
    | HttpStatus(status: int)   // the response was not ok
    | NoContent                 // the first choice had no message content
    | ParseError                // the content was not JSON

  type ClassifierReply = Result<RawSelection, ClassifierError>

  /** Raised when the fallback has no cartridge to fall back to: reading `id`
      of `cartridges[0]` on an empty list. */
  datatype SelectionError = NoFallbackCartridge

  const FallbackScore := 50
  const FallbackReasoning := "Fallback selection due to API error"

  /** One entry of the cartridge list written into the prompt. */
  datatype CartridgeSummary = CartridgeSummary(
    id: int,
    name: string,
    description: string,
    tags: seq<string>,
    nodeCount: int,
    lastUpdated: int)

  /** The prompt: the query and the summaries, which the source renders as
      text around a pretty-printed JSON array. */
  datatype SelectionPrompt = SelectionPrompt(query: string, candidates: seq<CartridgeSummary>)

  /** `Math.min(100, Math.max(0, score))`. */
  function Clamp(score: int): (r: int)
    ensures 0 <= r <= 100
    ensures 0 <= score <= 100 ==> r == score
    ensures score < 0 ==> r == 0
    ensures score > 100 ==> r == 100
  {
    Js.Min(100, Js.Max(0, score))
  }

  /** The validation `!id || !matchScore || !reasoning`: a missing field, the
      number 0 and the empty string are all falsy, so each is rejected. */
  function Acceptable(raw: RawSelection): (ok: bool)
    ensures raw.selectedCartridgeId == None || raw.selectedCartridgeId == Some(0) ==> !ok
    ensures raw.matchScore == None || raw.matchScore == Some(0) ==> !ok
    ensures raw.reasoning == None || raw.reasoning == Some("") ==> !ok
    ensures (&& raw.selectedCartridgeId.Some? && raw.selectedCartridgeId.value != 0
             && raw.matchScore.Some? && raw.matchScore.value != 0
             && raw.reasoning.Some? && raw.reasoning.value != "") ==> ok
  {
    && raw.selectedCartridgeId.Some? && raw.selectedCartridgeId.value != 0
    && raw.matchScore.Some? && raw.matchScore.value != 0
    && raw.reasoning.Some? && raw.reasoning.value != ""
  }

  /** `cartridges.find(c => c.isActive) || cartridges[0]`. */
  function FallbackCartridge(cartridges: seq<Cartridge>): (r: Option<Cartridge>)
    ensures r.None? <==> |cartridges| == 0
    ensures r.Some? ==> r.value in cartridges
    ensures r.Some? && r.value.isActive ==>
      exists i :: 0 <= i < |cartridges| && cartridges[i] == r.value
        && forall j :: 0 <= j < i ==> !cartridges[j].isActive
    ensures r.Some? && !r.value.isActive ==>
      r.value == cartridges[0] && forall c :: c in cartridges ==> !c.isActive
  {
    if |cartridges| == 0 then None
    else if cartridges[0].isActive then Some(cartridges[0])
    else
      var rest := FallbackCartridge(cartridges[1..]);
      if rest.Some? && rest.value.isActive then
        var i :| 0 <= i < |cartridges[1..]| && cartridges[1..][i] == rest.value
          && forall j :: 0 <= j < i ==> !cartridges[1..][j].isActive;
        assert cartridges[i + 1] == rest.value;
        rest
      else
        assert forall c :: c in cartridges ==> c == cartridges[0] || c in cartridges[1..];
        Some(cartridges[0])
  }

  /** `selectCartridge`: an acceptable reply is returned with its score
      clamped into [0, 100]; any failure or rejected reply yields the fallback
      cartridge (the first active one, else the first) with score 50. The selected id is passed through unchecked,
      so it need not name one of `cartridges`. */
  function SelectCartridge(cartridges: seq<Cartridge>, reply: ClassifierReply): (r: Result<SelectionResult, SelectionError>)
    ensures r.Success? ==> ValidSelection(r.value)
    ensures reply.Success? && Acceptable(reply.value) ==>
      r == Success(SelectionResult(reply.value.selectedCartridgeId.value,
                                   Clamp(reply.value.matchScore.value),
                                   reply.value.reasoning.value))
    ensures !(reply.Success? && Acceptable(reply.value)) ==>
      (r.Failure? <==> |cartridges| == 0)
    ensures !(reply.Success? && Acceptable(reply.value)) && r.Success? ==>
      && r.value.matchScore == FallbackScore
      && r.value.reasoning == FallbackReasoning
      && FallbackCartridge(cartridges).Some?
      && r.value.selectedCartridgeId == FallbackCartridge(cartridges).value.id
  {
    if reply.Success? && Acceptable(reply.value) then
      var raw := reply.value;
      Success(SelectionResult(raw.selectedCartridgeId.value, Clamp(raw.matchScore.value), raw.reasoning.value))
    else
      match FallbackCartridge(cartridges)
      case None => Failure(NoFallbackCartridge)
      case Some(c) => Success(SelectionResult(c.id, FallbackScore, FallbackReasoning))
  }

  /** The summary of one cartridge: absent tags become the empty list and the
      update time is reported as `lastUpdated`. */
  function Summary(c: Cartridge): (r: CartridgeSummary)
    ensures r.id == c.id && r.name == c.name && r.description == c.description
    ensures c.metadata.tags.Some? ==> r.tags == c.metadata.tags.value
    ensures c.metadata.tags.None? ==> r.tags == []
    ensures r.nodeCount == c.metadata.nodeCount && r.lastUpdated == c.updatedAt
  {
    CartridgeSummary(c.id, c.name, c.description, c.metadata.tags.GetOr([]),
                     c.metadata.nodeCount, c.updatedAt)
  }

  /** `buildCartridgeSelectionPrompt`: one summary per cartridge, in order. */
  function BuildSelectionPrompt(query: string, cartridges: seq<Cartridge>): (r: SelectionPrompt)
    ensures r.query == query
    ensures |r.candidates| == |cartridges|
    ensures forall i :: 0 <= i < |cartridges| ==> r.candidates[i] == Summary(cartridges[i])
  {
    SelectionPrompt(query, seq(|cartridges|, i requires 0 <= i < |cartridges| => Summary(cartridges[i])))
  }

  /** The prompt lists the candidates' ids exactly: an id is offered iff it
      is the id of one of the cartridges. */
  lemma {:induction false} PromptOffersEveryCartridge(query: string, cartridges: seq<Cartridge>, id: int)
    ensures (exists s :: s in BuildSelectionPrompt(query, cartridges).candidates && s.id == id)
        <==> (exists c :: c in cartridges && c.id == id)
  {
    var p := BuildSelectionPrompt(query, cartridges);
    if exists c :: c in cartridges && c.id == id {
      var c :| c in cartridges && c.id == id;
      var i :| 0 <= i < |cartridges| && cartridges[i] == c;
      assert p.candidates[i] in p.candidates && p.candidates[i].id == id;
    }
    if exists s :: s in p.candidates && s.id == id {
      var s :| s in p.candidates && s.id == id;
      var i :| 0 <= i < |p.candidates| && p.candidates[i] == s;
      assert cartridges[i] in cartridges && cartridges[i].id == id;
    }
  }

  /** A score of 0 is falsy, so the classifier's answer is discarded and the
      fallback is used, while any negative score is kept and clamped to 0. */
  lemma ZeroScoreFallsBack(cartridges: seq<Cartridge>, id: int, score: int, reasoning: string)
    requires |cartridges| > 0 && id != 0 && reasoning != ""
    ensures var r := SelectCartridge(cartridges, Success(RawSelection(Some(id), Some(score), Some(reasoning))));
      && r.Success?
      && (score == 0 ==> r.value.matchScore == FallbackScore && r.value.reasoning == FallbackReasoning)
      && (score < 0 ==> r.value == SelectionResult(id, 0, reasoning))
  {
  }
}
