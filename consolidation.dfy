/**
 * Memory consolidation after a chat turn (`updateCartridgeMemory` and its
 * helpers): the turn becomes a conversation record carrying a short topic,
 * up to ten key concepts and a truncated outcome; it is appended to the
 * cartridge's episodic memory, which keeps only the latest fifty records, and
 * the cartridge's node count and size grow by one step.
 */
module Consolidation {
  import opened Wrappers
  import opened Schema
  import Js

  const MaxConversations := 50
  const MaxKeyConcepts := 10
  const TopicWords := 5
  const OutcomeLength := 200
  const Ellipsis := "..."
  const ConversationIdPrefix := "conv_"

  /** The common words `extractKeyConcepts` never reports. */
  const StopWords: set<string> := {
    "the", "a", "an", "and", "or", "but", "in", "on", "at", "to", "for", "of", "with", "by",
    "is", "are", "was", "were", "be", "been", "being", "have", "has", "had", "do", "does", "did",
    "will", "would", "could", "should", "may", "might", "can", "this", "that", "these", "those" }

  /** The reading of the clock a consolidation uses: `Date.now()` and the
      same instant as `toISOString()` renders it. */
  datatype Clock = Clock(millis: nat, iso: string)

  predicate IsKeyword(w: string)
  {
    |w| > 3 && w !in StopWords
  }

  predicate Distinct(ws: seq<string>)
  {
    forall i, j :: 0 <= i < j < |ws| ==> ws[i] != ws[j]
  }

  /** The words `extractKeyConcepts` looks at: the lower-cased text split at
      runs of whitespace. */
  function Words(text: string): seq<string>
  {
    Js.SplitWhitespace(Js.ToLower(text))
  }

  /** The first filter: words longer than three characters that are not
      stop words, in order. `KeywordsFilter` states it is that filter. */
  function Keywords(ws: seq<string>): (r: seq<string>)
    ensures forall w :: w in r <==> w in ws && IsKeyword(w)
    ensures |r| <= |ws|
  {
    if ws == [] then []
    else
      assert forall w :: w in ws <==> w == ws[0] || w in ws[1..];
      (if IsKeyword(ws[0]) then [ws[0]] else []) + Keywords(ws[1..])
  }

  /** `Keywords` is a filter: it distributes over concatenation and keeps a
      single word exactly when that word is a keyword. */
  lemma {:induction false} KeywordsFilter(a: seq<string>, b: seq<string>)
    ensures Keywords(a + b) == Keywords(a) + Keywords(b)
    ensures |a| == 1 ==> Keywords(a) == if IsKeyword(a[0]) then a else []
  {
    if a == [] {
      assert a + b == b;
    } else {
      KeywordsFilter(a[1..], b);
      Js.AppendHead(a, b);
      var k := if IsKeyword(a[0]) then [a[0]] else [];
      Js.AppendAssoc(k, Keywords(a[1..]), Keywords(b));
      if |a| == 1 {
        assert a[1..] == [];
        assert k + [] == k;
      }
    }
  }

  /** The order of two keywords among the keywords of `ws` is their order
      in `ws`, measured by first occurrence. */
  lemma {:induction false} KeywordsKeepOrder(ws: seq<string>, a: string, b: string)
    requires a in Keywords(ws) && b in Keywords(ws)
    ensures Js.IndexOf(Keywords(ws), a) < Js.IndexOf(Keywords(ws), b)
        <==> Js.IndexOf(ws, a) < Js.IndexOf(ws, b)
  {
    var h, t := ws[0], ws[1..];
    Js.ConsTail(ws);
    KeywordsFilter([h], t);
    Js.IndexOfCons(h, t, a);
    Js.IndexOfCons(h, t, b);
    if IsKeyword(h) {
      Js.IndexOfCons(h, Keywords(t), a);
      Js.IndexOfCons(h, Keywords(t), b);
    } else {
      assert [] + Keywords(t) == Keywords(t);
    }
    if a != h && b != h {
      KeywordsKeepOrder(t, a, b);
    }
  }

  /** The second filter, `arr.indexOf(w) === i`: a word is kept exactly where
      it first occurs, so the result holds each word of `ws` once, ordered by
      where the word first occurs in `ws`. */
  function FirstOccurrences(ws: seq<string>): (r: seq<string>)
    ensures forall w :: w in r <==> w in ws
    ensures Distinct(r)
    ensures forall i, j :: 0 <= i < j < |r| ==> Js.IndexOf(ws, r[i]) < Js.IndexOf(ws, r[j])
  {
    if ws == [] then []
    else
      var init := ws[..|ws| - 1];
      var last := ws[|ws| - 1];
      var d := FirstOccurrences(init);
      assert ws == init + [last];
      IndexOfInPrefix(init, [last]);
      Js.IndexOfAppend(init, [last], last);
      assert forall w :: w in ws <==> w in init || w == last;
      if last in init then d else d + [last]
  }

  /** A word of `a` is first found in `a + b` where it is first found in `a`. */
  lemma {:induction false} IndexOfInPrefix(a: seq<string>, b: seq<string>)
    ensures forall x :: x in a ==> Js.IndexOf(a + b, x) == Js.IndexOf(a, x)
  {
    forall x | x in a ensures Js.IndexOf(a + b, x) == Js.IndexOf(a, x) {
      Js.IndexOfAppend(a, b, x);
    }
  }

  /** `extractKeyConcepts`: lower-case the text, split it at runs of
      whitespace, keep the keywords, drop repeats and take the first ten.
      The concepts are distinct lower-case keywords of the text in the order
      they first occur, and a keyword is left out only when ten concepts
      were already found before its first occurrence. */
  function ExtractKeyConcepts(text: string): (r: seq<string>)
    ensures |r| <= MaxKeyConcepts
    ensures Distinct(r)
    ensures forall w :: w in r ==> IsKeyword(w) && w in Words(text)
    ensures forall w :: w in r ==> Js.IsLower(w) && Js.NoWhitespace(w)
    ensures forall i, j :: 0 <= i < j < |r| ==> Js.IndexOf(Words(text), r[i]) < Js.IndexOf(Words(text), r[j])
    ensures forall w :: w in Words(text) && IsKeyword(w) && w !in r ==>
      |r| == MaxKeyConcepts && Js.IndexOf(Words(text), r[|r| - 1]) < Js.IndexOf(Words(text), w)
  {
    var words := Words(text);
    LowerWords(text);
    var unique := FirstOccurrences(Keywords(words));
    UniqueKeywords(words);
    var r := Js.Take(unique, MaxKeyConcepts);
    assert forall i :: 0 <= i < |r| ==> r[i] == unique[i];
    assert forall w :: w in r ==> w in unique;
    assert forall w :: w in words ==> Js.NoWhitespace(w);
    r
  }

  /** The keywords of `words` without repeats are ordered by first
      occurrence in `words`; one of them beyond the first ten comes after
      the tenth. */
  lemma {:induction false} UniqueKeywords(words: seq<string>)
    ensures var u := FirstOccurrences(Keywords(words));
      && (forall i, j :: 0 <= i < j < |u| ==> Js.IndexOf(words, u[i]) < Js.IndexOf(words, u[j]))
      && (forall w :: w in words && IsKeyword(w) && w !in Js.Take(u, MaxKeyConcepts) ==>
            |u| > MaxKeyConcepts && Js.IndexOf(words, u[MaxKeyConcepts - 1]) < Js.IndexOf(words, w))
  {
    var k := Keywords(words);
    var u := FirstOccurrences(k);
    forall i, j | 0 <= i < j < |u| ensures Js.IndexOf(words, u[i]) < Js.IndexOf(words, u[j]) {
      KeywordsKeepOrder(words, u[i], u[j]);
    }
    forall w | w in words && IsKeyword(w) && w !in Js.Take(u, MaxKeyConcepts)
      ensures |u| > MaxKeyConcepts && Js.IndexOf(words, u[MaxKeyConcepts - 1]) < Js.IndexOf(words, w)
    {
      assert w in u;
      var n :| 0 <= n < |u| && u[n] == w;
      assert n >= MaxKeyConcepts;
      assert Js.IndexOf(words, u[MaxKeyConcepts - 1]) < Js.IndexOf(words, u[n]);
    }
  }

  /** Every word of the lower-cased text is itself lower case. */
  lemma {:induction false} LowerWords(text: string)
    ensures forall w :: w in Words(text) ==> Js.IsLower(w)
  {
    Js.SplitWhitespaceLower(Js.ToLower(text));
  }

  /** A list of keywords passes the first filter unchanged. */
  lemma {:induction false} KeywordsOfKeywords(ws: seq<string>)
    requires forall i :: 0 <= i < |ws| ==> IsKeyword(ws[i])
    ensures Keywords(ws) == ws
  {
    if ws != [] {
      KeywordsOfKeywords(ws[1..]);
    }
  }

  /** A list without repeats passes the second filter unchanged. */
  lemma {:induction false} FirstOccurrencesOfDistinct(ws: seq<string>)
    requires Distinct(ws)
    ensures FirstOccurrences(ws) == ws
  {
    if ws != [] {
      var init := ws[..|ws| - 1];
      var last := ws[|ws| - 1];
      FirstOccurrencesOfDistinct(init);
      assert last !in init;
      FirstOccurrencesAppend(init, last);
      assert init + [last] == ws;
    }
  }

  /** One step of the second filter: a word is added at the end exactly
      when it is new. */
  lemma {:induction false} FirstOccurrencesAppend(init: seq<string>, last: string)
    ensures FirstOccurrences(init + [last])
      == if last in init then FirstOccurrences(init) else FirstOccurrences(init) + [last]
  {
    var ws := init + [last];
    assert ws[..|ws| - 1] == init && ws[|ws| - 1] == last;
  }

  /** The key concepts, written out with single spaces, give back the same
      key concepts: the extraction is idempotent. */
  lemma {:induction false} KeyConceptsFixedPoint(text: string)
    ensures var r := ExtractKeyConcepts(text);
      ExtractKeyConcepts(Js.Join(r, ' ')) == r
  {
    var r := ExtractKeyConcepts(text);
    var joined := Js.Join(r, ' ');
    if r == [] {
      assert Js.ToLower(joined) == "";
      assert Js.SplitWhitespace("") == [""];
      assert Keywords([""]) == [];
    } else {
      forall i | 0 <= i < |r| ensures Js.IsLower(r[i]) && |r[i]| >= 1 && Js.NoWhitespace(r[i]) {
        assert r[i] in r;
      }
      Js.ToLowerJoin(r);
      Js.SplitWhitespaceJoin(r);
      forall i | 0 <= i < |r| ensures IsKeyword(r[i]) {
        assert r[i] in r;
      }
      KeywordsOfKeywords(r);
      FirstOccurrencesOfDistinct(r);
    }
  }

  /** `extractTopic`: the first five space-separated pieces of the message,
      joined back with spaces. A message with at most four spaces is its own
      topic; otherwise the topic is the prefix that stops right before the
      fifth space. */
  function ExtractTopic(message: string): (r: string)
    ensures r <= message
    ensures Js.Count(message, ' ') <= TopicWords - 1 ==> r == message
    ensures Js.Count(message, ' ') >= TopicWords ==>
      Js.Count(r, ' ') == TopicWords - 1 && |r| < |message| && message[|r|] == ' '
  {
    var pieces := Js.SplitOn(message, ' ');
    TopicOfPieces(message, pieces);
    Js.Join(Js.Take(pieces, TopicWords), ' ')
  }

  /** The first five pieces of a message split at spaces, joined back. */
  lemma {:induction false} TopicOfPieces(message: string, pieces: seq<string>)
    requires pieces == Js.SplitOn(message, ' ')
    ensures var r := Js.Join(Js.Take(pieces, TopicWords), ' ');
      && r <= message
      && (Js.Count(message, ' ') <= TopicWords - 1 ==> r == message)
      && (Js.Count(message, ' ') >= TopicWords ==>
            Js.Count(r, ' ') == TopicWords - 1 && |r| < |message| && message[|r|] == ' ')
  {
    Js.SplitOnLength(message, ' ');
    if |pieces| <= TopicWords {
      assert Js.Take(pieces, TopicWords) == pieces;
    } else {
      TopicCut(message, pieces);
    }
  }

  /** With more than five pieces, the topic stops right before the separator
      that follows the fifth piece. */
  lemma {:induction false} TopicCut(message: string, pieces: seq<string>)
    requires |pieces| > TopicWords && message == Js.Join(pieces, ' ')
    requires forall i :: 0 <= i < |pieces| ==> ' ' !in pieces[i]
    ensures var r := Js.Join(Js.Take(pieces, TopicWords), ' ');
      r <= message && Js.Count(r, ' ') == TopicWords - 1 && |r| < |message| && message[|r|] == ' '
  {
    var first, rest := pieces[..TopicWords], pieces[TopicWords..];
    assert pieces == first + rest;
    assert Js.Take(pieces, TopicWords) == first;
    Js.JoinAppend(first, rest, ' ');
    Js.SeparatedPrefix(Js.Join(first, ' '), ' ', Js.Join(rest, ' '));
  }

  /** The recorded outcome: the first 200 characters of the response followed
      by an ellipsis, which is appended even when nothing was cut. */
  function Outcome(response: string): (r: string)
    ensures |r| == Js.Min(OutcomeLength, |response|) + |Ellipsis|
    ensures |response| <= OutcomeLength ==> r == response + Ellipsis
    ensures |response| > OutcomeLength ==> r == response[..OutcomeLength] + Ellipsis
  {
    Js.Take(response, OutcomeLength) + Ellipsis
  }

  /** The record of one turn: its id is `conv_` followed by the clock's
      milliseconds, which can be read back from it, and it carries the
      clock's timestamp, the topic of the user message, the key concepts of
      both messages, no embedding, and the outcome of the response. */
  function NewConversation(userMessage: string, aiResponse: string, clock: Clock): (c: Conversation)
    ensures IdEncodes(c.id, clock.millis)
    ensures c.timestamp == clock.iso
    ensures c.topic == ExtractTopic(userMessage)
    ensures c.contextEmbedding == None
    ensures c.keyConcepts == ExtractKeyConcepts(userMessage + " " + aiResponse)
    ensures c.outcomes == [Outcome(aiResponse)]
  {
    ConversationIdDigits(clock.millis);
    Conversation(
      ConversationIdPrefix + Js.NatToDecimal(clock.millis),
      clock.iso,
      ExtractTopic(userMessage),
      None,
      ExtractKeyConcepts(userMessage + " " + aiResponse),
      [Outcome(aiResponse)])
  }

  /** `id` is the prefix, then digits without a leading zero (unless they
      are the single digit 0) that read back as `millis`. */
  predicate IdEncodes(id: string, millis: nat)
  {
    && |id| > |ConversationIdPrefix| && id[..|ConversationIdPrefix|] == ConversationIdPrefix
    && (forall i :: |ConversationIdPrefix| <= i < |id| ==> '0' <= id[i] <= '9')
    && (id[|ConversationIdPrefix|] == '0' ==> |id| == |ConversationIdPrefix| + 1)
    && Js.DecimalValue(id[|ConversationIdPrefix|..]) == millis
  }

  lemma {:induction false} ConversationIdDigits(millis: nat)
    ensures IdEncodes(ConversationIdPrefix + Js.NatToDecimal(millis), millis)
  {
    var digits := Js.NatToDecimal(millis);
    var id := ConversationIdPrefix + digits;
    assert id[|ConversationIdPrefix|..] == digits;
    Js.DecimalRoundTrip(millis);
  }

  /** `[...old, c].slice(-50)`: the record is appended and, once there are
      more than fifty, the oldest records are dropped first. */
  function Consolidated(previous: seq<Conversation>, c: Conversation): (r: seq<Conversation>)
    ensures |r| == Js.Min(|previous| + 1, MaxConversations)
    ensures r[|r| - 1] == c
    ensures |previous| < MaxConversations ==> r == previous + [c]
    ensures |previous| >= MaxConversations ==> r == previous[|previous| - (MaxConversations - 1)..] + [c]
  {
    var all := previous + [c];
    var r := Js.SliceFrom(all, -MaxConversations);
    assert |previous| >= MaxConversations ==> all[|all| - MaxConversations..] == previous[|previous| - (MaxConversations - 1)..] + [c];
    r
  }

  /** The metadata after one consolidation: one more node and 0.001 MB more;
      version, author and tags are kept. */
  function ConsolidatedMetadata(md: CartridgeMetadata): (r: CartridgeMetadata)
    ensures r.nodeCount == md.nodeCount + 1
    ensures r.sizeMb == md.sizeMb + 0.001
    ensures r.version == md.version && r.createdBy == md.createdBy && r.tags == md.tags
  {
    md.(nodeCount := md.nodeCount + 1, sizeMb := md.sizeMb + 0.001)
  }

  /** The update `updateCartridgeMemory` sends to the store: only the episodic
      memory and the metadata are supplied. */
  function MemoryUpdate(c: Cartridge, userMessage: string, aiResponse: string, clock: Clock): (u: UpdateCartridge)
    ensures u.name.None? && u.description.None? && u.isActive.None?
    ensures u.semanticMemory.None? && u.proceduralMemory.None?
    ensures u.episodicMemory == Some(EpisodicMemory(
      Consolidated(c.episodicMemory.conversations, NewConversation(userMessage, aiResponse, clock))))
    ensures u.metadata == Some(ConsolidatedMetadata(c.metadata))
  {
    UpdateCartridge(
      None, None,
      Some(c.episodicMemory.(conversations :=
        Consolidated(c.episodicMemory.conversations, NewConversation(userMessage, aiResponse, clock)))),
      None, None,
      Some(ConsolidatedMetadata(c.metadata)),
      None)
  }

  /** Applied to the cartridge it was built from, the update keeps the
      cartridge's identity, texts, semantic and procedural memory and
      activation, records the turn last in a memory of at most fifty
      records, and counts one more node. */
  lemma {:induction false} ConsolidationTouchesOnlyMemory(c: Cartridge, userMessage: string, aiResponse: string, clock: Clock, now: int)
    ensures var r := ApplyUpdate(c, MemoryUpdate(c, userMessage, aiResponse, clock), now);
      && r.id == c.id && r.name == c.name && r.description == c.description
      && r.semanticMemory == c.semanticMemory && r.proceduralMemory == c.proceduralMemory
      && r.isActive == c.isActive && r.createdAt == c.createdAt && r.updatedAt == now
      && 1 <= |r.episodicMemory.conversations| <= MaxConversations
      && r.episodicMemory.conversations[|r.episodicMemory.conversations| - 1]
         == NewConversation(userMessage, aiResponse, clock)
      && r.metadata.nodeCount == c.metadata.nodeCount + 1
      && r.metadata.tags == c.metadata.tags && r.metadata.version == c.metadata.version
  {
    var list := Consolidated(c.episodicMemory.conversations, NewConversation(userMessage, aiResponse, clock));
    var u := MemoryUpdate(c, userMessage, aiResponse, clock);
    assert u.episodicMemory == Some(EpisodicMemory(list));
    assert u.metadata == Some(ConsolidatedMetadata(c.metadata));
  }
}
