/**
 * The in-memory store (`MemStorage`): three id-keyed maps for users,
 * cartridges and messages, each with a counter that hands out the next id.
 * A JavaScript `Map` iterates in insertion order, so each map comes with the
 * sequence of its keys in that order; since ids are handed out in increasing
 * order and never reused, that sequence is increasing.
 */
module Storage {
  import opened Wrappers
  import opened Schema
  import Sorting
  import Js

  /** Sort key of `getCartridges`: most recently updated first. */
  function RecencyKey(c: Cartridge): int { -c.updatedAt }

  /** Sort key of the message listings: oldest first. */
  function ChronoKey(m: Message): int { m.createdAt }

  function CartridgeId(c: Cartridge): int { c.id }

  function MessageId(m: Message): int { m.id }

  predicate Increasing(s: seq<int>)
  {
    forall i, j :: 0 <= i < j < |s| ==> s[i] < s[j]
  }

  /** `order` lists exactly `keys`, in increasing order, all of them ids
      already handed out by a counter now at `next`. */
  ghost predicate Ordered(order: seq<int>, keys: set<int>, next: int)
  {
    && 1 <= next
    && Increasing(order)
    && (forall i :: 0 <= i < |order| ==> order[i] in keys)
    && (forall k :: k in keys <==> k in order)
    && (forall k :: k in keys ==> 1 <= k < next)
  }

  /** The values of `m` in the order `order` lists their keys
      (`Array.from(map.values())`). */
  function Values<T>(order: seq<int>, m: map<int, T>): (r: seq<T>)
    requires forall i :: 0 <= i < |order| ==> order[i] in m
    ensures |r| == |order|
    ensures forall i :: 0 <= i < |order| ==> r[i] == m[order[i]]
  {
    seq(|order|, i requires 0 <= i < |order| => m[order[i]])
  }

  /** `order` with `x` removed. */
  function Without(order: seq<int>, x: int): (r: seq<int>)
    ensures forall y :: y in r <==> y in order && y != x
    ensures Increasing(order) ==> Increasing(r)
  {
    if order == [] then []
    else
      var rest := Without(order[1..], x);
      assert Increasing(order) ==> Increasing(order[1..]) by {
        if Increasing(order) {
          forall i, j | 0 <= i < j < |order[1..]| ensures order[1..][i] < order[1..][j] {
            assert order[1..][i] == order[i + 1] && order[1..][j] == order[j + 1];
          }
        }
      }
      if order[0] == x then rest
      else
        assert Increasing(order) ==> Increasing([order[0]] + rest) by {
          if Increasing(order) {
            forall y | y in rest ensures order[0] < y {
              var j :| 0 <= j < |order[1..]| && order[1..][j] == y;
              assert order[j + 1] == y;
            }
            ConsIncreasing(order[0], rest);
          }
        }
        [order[0]] + rest
  }

  lemma ConsIncreasing(x: int, s: seq<int>)
    requires Increasing(s)
    requires forall y :: y in s ==> x < y
    ensures Increasing([x] + s)
  {
    var t := [x] + s;
    forall i, j | 0 <= i < j < |t| ensures t[i] < t[j] {
      assert t[j] == s[j - 1] && s[j - 1] in s;
      if i > 0 {
        assert t[i] == s[i - 1];
      }
    }
  }

  function ActiveIds(m: map<int, Cartridge>): set<int>
  {
    set k | k in m && m[k].isActive
  }

  ghost predicate AtMostOneActive(m: map<int, Cartridge>)
  {
    forall a, b :: a in m && b in m && m[a].isActive && m[b].isActive ==> a == b
  }

  /** The cartridge map after `setActiveCartridge(id)`: only activation flags
      change; `id` is active if it is stored, and nothing else is. */
  function Activated(m: map<int, Cartridge>, id: int): (r: map<int, Cartridge>)
    ensures r.Keys == m.Keys
    ensures forall k :: k in r ==> (r[k].isActive <==> k == id)
    ensures forall k :: k in r ==> r[k].(isActive := m[k].isActive) == m[k]
    ensures id in m ==> ActiveIds(r) == {id}
    ensures id !in m ==> ActiveIds(r) == {}
    ensures AtMostOneActive(r)
  {
    map k | k in m :: m[k].(isActive := k == id)
  }

  /** Once every flag of `m` is cleared, raising the flag of `id` (when
      stored) yields `Activated(m, id)`. */
  lemma ActivatedAfterReset(m: map<int, Cartridge>, reset: map<int, Cartridge>, id: int)
    requires reset.Keys == m.Keys
    requires forall k :: k in reset ==> reset[k] == m[k].(isActive := false)
    ensures id in reset ==> reset[id := reset[id].(isActive := true)] == Activated(m, id)
    ensures id !in reset ==> reset == Activated(m, id)
    ensures forall k :: k in reset ==> reset[k].id == m[k].id
  {
    var a := Activated(m, id);
    if id in reset {
      var r := reset[id := reset[id].(isActive := true)];
      assert forall k :: k in r ==> r[k] == a[k];
    } else {
      assert forall k :: k in reset ==> reset[k] == a[k];
    }
  }

  /** Messages whose cartridge is `cartridgeId`, in their original order. */
  function OfCartridge(ms: seq<Message>, cartridgeId: int): (r: seq<Message>)
    ensures forall m :: m in r <==> m in ms && m.cartridgeId == Some(cartridgeId)
    ensures IdsIncreasing(ms) ==> IdsIncreasing(r)
  {
    if ms == [] then []
    else
      var rest := OfCartridge(ms[1..], cartridgeId);
      assert forall m :: m in ms <==> m == ms[0] || m in ms[1..];
      if ms[0].cartridgeId == Some(cartridgeId) then [ms[0]] + rest else rest
  }

  predicate IdsIncreasing(ms: seq<Message>)
  {
    forall i, j :: 0 <= i < j < |ms| ==> ms[i].id < ms[j].id
  }

  const EmptyEpisodic := EpisodicMemory([])
  const EmptySemantic := SemanticMemory(map[])
  const EmptyProcedural := ProceduralMemory([])

  const WebDevelopmentSeed := InsertCartridge("Web Development",
    "React, Next.js, TypeScript patterns and best practices",
    EmptyEpisodic, EmptySemantic, EmptyProcedural,
    CartridgeMetadata("1.0.0", 2.4, 1247, None, Some(["react", "typescript", "web"])),
    Some(true))

  const ResearchSeed := InsertCartridge("AI/ML Research",
    "Machine learning papers, model architectures, training techniques",
    EmptyEpisodic, EmptySemantic, EmptyProcedural,
    CartridgeMetadata("1.0.0", 4.1, 2891, None, Some(["ai", "ml", "research"])),
    Some(false))

  const SystemDesignSeed := InsertCartridge("System Design",
    "Scalable architecture patterns, distributed systems",
    EmptyEpisodic, EmptySemantic, EmptyProcedural,
    CartridgeMetadata("1.0.0", 1.8, 892, None, Some(["system-design", "architecture"])),
    Some(false))

  /** The three cartridges a new store is seeded with; the first is active. */
  function DefaultCartridges(): seq<InsertCartridge>
  {
    [WebDevelopmentSeed, ResearchSeed, SystemDesignSeed]
  }

  /** A store seeded with the default cartridges has exactly the first
      one active. */
  lemma SeededActivity(m: map<int, Cartridge>, now: int)
    requires forall k :: k in m <==> 1 <= k <= 3
    requires forall k :: k in m ==> m[k] == NewCartridge(k, DefaultCartridges()[k - 1], now)
    ensures ActiveIds(m) == {1}
    ensures AtMostOneActive(m)
  {
    var seeds := DefaultCartridges();
    assert seeds[0].isActive == Some(true);
    assert seeds[1].isActive == Some(false) && seeds[2].isActive == Some(false);
    assert forall k :: k in m ==> (m[k].isActive <==> k == 1);
  }

  /** `order` is 1, 2, ..., n. */
  ghost predicate FirstIds(order: seq<int>, n: nat)
  {
    |order| == n && forall j :: 0 <= j < n ==> order[j] == j + 1
  }

  /** `m` holds the first `n` seeds under ids 1 to `n`, created at `now`. */
  ghost predicate Seeded(m: map<int, Cartridge>, seeds: seq<InsertCartridge>, n: nat, now: int)
    requires n <= |seeds|
  {
    && (forall k :: k in m <==> 1 <= k <= n)
    && (forall k :: k in m ==> m[k] == NewCartridge(k, seeds[k - 1], now))
  }

  /** Creating seed `n` under id `n + 1` extends both. */
  lemma SeededStep(m: map<int, Cartridge>, order: seq<int>, seeds: seq<InsertCartridge>, n: nat, now: int)
    requires n < |seeds|
    requires |order| == n + 1 && order[n] == n + 1 && FirstIds(order[..n], n)
    requires n + 1 in m && m[n + 1] == NewCartridge(n + 1, seeds[n], now)
    requires Seeded(m - {n + 1}, seeds, n, now)
    ensures FirstIds(order, n + 1)
    ensures Seeded(m, seeds, n + 1, now)
  {
    forall j | 0 <= j < n ensures order[j] == j + 1 {
      assert order[..n][j] == order[j];
    }
    forall k ensures k in m <==> 1 <= k <= n + 1 {
      assert k in m <==> k == n + 1 || k in m - {n + 1};
    }
    forall k | k in m ensures m[k] == NewCartridge(k, seeds[k - 1], now) {
      if k != n + 1 {
        assert k in m - {n + 1};
      }
    }
  }

  /** Handing out the next id keeps a key order ordered. */
  lemma OrderedAppend(order: seq<int>, keys: set<int>, next: int)
    requires Ordered(order, keys, next)
    ensures Ordered(order + [next], keys + {next}, next + 1)
  {
    var o := order + [next];
    forall i, j | 0 <= i < j < |o| ensures o[i] < o[j] {
      if j == |order| {
        assert order[i] in keys;
      }
    }
  }

  predicate CartridgeIdsIncreasing(cs: seq<Cartridge>)
  {
    forall i, j :: 0 <= i < j < |cs| ==> cs[i].id < cs[j].id
  }

  /** What sorting an id-ordered list of cartridges by recency gives: the same
      elements, most recently updated first, ties in increasing id order. */
  lemma {:induction false} RecencyListing(cs: seq<Cartridge>)
    requires CartridgeIdsIncreasing(cs)
    ensures var r := Sorting.SortBy(cs, RecencyKey);
      && (forall c :: c in r <==> c in cs)
      && (forall i, j :: 0 <= i < j < |r| ==> r[i].updatedAt >= r[j].updatedAt)
      && (forall i, j :: 0 <= i < j < |r| && r[i].updatedAt == r[j].updatedAt ==> r[i].id < r[j].id)
  {
    Sorting.SortKeepsTieOrder(cs, RecencyKey, CartridgeId);
    var r := Sorting.SortBy(cs, RecencyKey);
    Sorting.SortByElements(cs, RecencyKey);
    forall i, j | 0 <= i < j < |r| ensures r[i].updatedAt >= r[j].updatedAt {
      assert RecencyKey(r[i]) <= RecencyKey(r[j]);
    }
    forall i, j | 0 <= i < j < |r| && r[i].updatedAt == r[j].updatedAt ensures r[i].id < r[j].id {
      assert RecencyKey(r[i]) == RecencyKey(r[j]);
      assert CartridgeId(r[i]) < CartridgeId(r[j]);
    }
  }

  /** What sorting an id-ordered list of messages by creation time gives: the
      same elements, oldest first, ties in increasing id order. */
  lemma {:induction false} ChronoListing(ms: seq<Message>)
    requires IdsIncreasing(ms)
    ensures var r := Sorting.SortBy(ms, ChronoKey);
      && (forall m :: m in r <==> m in ms)
      && (forall i, j :: 0 <= i < j < |r| ==> r[i].createdAt <= r[j].createdAt)
      && (forall i, j :: 0 <= i < j < |r| && r[i].createdAt == r[j].createdAt ==> r[i].id < r[j].id)
  {
    Sorting.SortKeepsTieOrder(ms, ChronoKey, MessageId);
    var r := Sorting.SortBy(ms, ChronoKey);
    Sorting.SortByElements(ms, ChronoKey);
    forall i, j | 0 <= i < j < |r| ensures r[i].createdAt <= r[j].createdAt {
      assert ChronoKey(r[i]) <= ChronoKey(r[j]);
    }
    forall i, j | 0 <= i < j < |r| && r[i].createdAt == r[j].createdAt ensures r[i].id < r[j].id {
      assert ChronoKey(r[i]) == ChronoKey(r[j]);
      assert MessageId(r[i]) < MessageId(r[j]);
    }
  }

  /** The cartridges of an ordered key list, read from an id-keyed map, are
      listed in increasing id order and are exactly the stored cartridges. */
  lemma CartridgeValues(order: seq<int>, m: map<int, Cartridge>, next: int)
    requires Ordered(order, m.Keys, next)
    requires forall k :: k in m ==> m[k].id == k
    ensures var v := Values(order, m);
      && CartridgeIdsIncreasing(v)
      && (forall c :: c in v ==> c.id in m && m[c.id] == c)
      && (forall k :: k in m ==> m[k] in v)
  {
    var v := Values(order, m);
    forall k | k in m ensures m[k] in v {
      var i :| 0 <= i < |order| && order[i] == k;
      assert v[i] == m[k];
    }
  }

  /** The same for messages. */
  lemma MessageValues(order: seq<int>, m: map<int, Message>, next: int)
    requires Ordered(order, m.Keys, next)
    requires forall k :: k in m ==> m[k].id == k
    ensures var v := Values(order, m);
      && IdsIncreasing(v)
      && (forall x :: x in v ==> x.id in m && m[x.id] == x)
      && (forall k :: k in m ==> m[k] in v)
  {
    var v := Values(order, m);
    forall k | k in m ensures m[k] in v {
      var i :| 0 <= i < |order| && order[i] == k;
      assert v[i] == m[k];
    }
  }

  /** The listing `getCartridges` returns for a store whose cartridge map is
      `m`, listed in insertion order by `order`. */
  lemma CartridgeListing(order: seq<int>, m: map<int, Cartridge>, next: int)
    requires Ordered(order, m.Keys, next)
    requires forall k :: k in m ==> m[k].id == k
    ensures var r := Sorting.SortBy(Values(order, m), RecencyKey);
      && (forall c :: c in r ==> c.id in m && m[c.id] == c)
      && (forall k :: k in m ==> m[k] in r)
      && (forall i, j :: 0 <= i < j < |r| ==> r[i].updatedAt >= r[j].updatedAt)
      && (forall i, j :: 0 <= i < j < |r| && r[i].updatedAt == r[j].updatedAt ==> r[i].id < r[j].id)
      && (forall i, j :: 0 <= i < j < |r| ==> r[i].id != r[j].id)
      && (|r| == 0 <==> m == map[])
  {
    var all := Values(order, m);
    CartridgeValues(order, m, next);
    RecencyListing(all);
    var r := Sorting.SortBy(all, RecencyKey);
    forall i, j | 0 <= i < j < |r| ensures r[i].id != r[j].id {
      assert r[i] in r && r[j] in r;
    }
    if m != map[] {
      var k :| k in m;
      assert m[k] in r;
    }
  }

  /** The listing `getMessages` sorts: every message, oldest first. */
  lemma MessageListing(order: seq<int>, m: map<int, Message>, next: int)
    requires Ordered(order, m.Keys, next)
    requires forall k :: k in m ==> m[k].id == k
    ensures var r := Sorting.SortBy(Values(order, m), ChronoKey);
      && (forall x :: x in r ==> x.id in m && m[x.id] == x)
      && (forall k :: k in m ==> m[k] in r)
      && (forall i, j :: 0 <= i < j < |r| ==> r[i].createdAt <= r[j].createdAt)
      && (forall i, j :: 0 <= i < j < |r| && r[i].createdAt == r[j].createdAt ==> r[i].id < r[j].id)
      && |r| == |order|
  {
    var all := Values(order, m);
    MessageValues(order, m, next);
    ChronoListing(all);
  }

  /** The listing `getMessagesByCartridge` returns: the messages of one
      cartridge, oldest first, each once. */
  lemma CartridgeMessageListing(order: seq<int>, m: map<int, Message>, next: int, cartridgeId: int)
    requires Ordered(order, m.Keys, next)
    requires forall k :: k in m ==> m[k].id == k
    ensures var r := Sorting.SortBy(OfCartridge(Values(order, m), cartridgeId), ChronoKey);
      && (forall x :: x in r ==> x.id in m && m[x.id] == x && x.cartridgeId == Some(cartridgeId))
      && (forall k :: k in m && m[k].cartridgeId == Some(cartridgeId) ==> m[k] in r)
      && (forall i, j :: 0 <= i < j < |r| ==> r[i].createdAt <= r[j].createdAt)
      && (forall i, j :: 0 <= i < j < |r| && r[i].createdAt == r[j].createdAt ==> r[i].id < r[j].id)
      && (forall i, j :: 0 <= i < j < |r| ==> r[i].id != r[j].id)
  {
    var all := Values(order, m);
    MessageValues(order, m, next);
    var mine := OfCartridge(all, cartridgeId);
    ChronoListing(mine);
    var r := Sorting.SortBy(mine, ChronoKey);
    forall i, j | 0 <= i < j < |r| ensures r[i].id != r[j].id {
      assert r[i] in r && r[j] in r;
    }
  }

  /** `Array.from(users.values()).find(u => u.username === username)`. */
  function FindByUsername(order: seq<int>, users: map<int, User>, username: string): (r: Option<User>)
    requires forall i :: 0 <= i < |order| ==> order[i] in users
    ensures r.Some? ==> exists i :: (0 <= i < |order| && users[order[i]] == r.value
      && r.value.username == username
      && forall j :: 0 <= j < i ==> users[order[j]].username != username)
    ensures r.None? ==> forall i :: 0 <= i < |order| ==> users[order[i]].username != username
  {
    if order == [] then None
    else if users[order[0]].username == username then Some(users[order[0]])
    else
      var r := FindByUsername(order[1..], users, username);
      if r.Some? then
        var i :| 0 <= i < |order[1..]| && users[order[1..][i]] == r.value
          && forall j :: 0 <= j < i ==> users[order[1..][j]].username != username;
        assert order[i + 1] == order[1..][i];
        r
      else r
  }

  /** In an ordered key list the first match is the stored match with the
      lowest id. */
  lemma FindFirstIsLowestId(order: seq<int>, users: map<int, User>, username: string)
    requires Increasing(order)
    requires forall i :: 0 <= i < |order| ==> order[i] in users
    requires forall k :: k in users ==> k in order && users[k].id == k
    ensures var r := FindByUsername(order, users, username);
      && (r.Some? ==> r.value.id in users && users[r.value.id] == r.value && r.value.username == username)
      && (r.Some? ==> forall k :: k in users && k < r.value.id ==> users[k].username != username)
      && (r.None? ==> forall k :: k in users ==> users[k].username != username)
  {
    var r := FindByUsername(order, users, username);
    if r.Some? {
      var i :| 0 <= i < |order| && users[order[i]] == r.value
        && forall j :: 0 <= j < i ==> users[order[j]].username != username;
      assert order[i] == r.value.id;
      forall k | k in users && k < r.value.id ensures users[k].username != username {
        var j :| 0 <= j < |order| && order[j] == k;
        assert j < i;
      }
    } else {
      forall k | k in users ensures users[k].username != username {
        var j :| 0 <= j < |order| && order[j] == k;
      }
    }
  }

  class MemStorage {
    var users: map<int, User>
    var cartridges: map<int, Cartridge>
    var messages: map<int, Message>
    var userOrder: seq<int>
    var cartridgeOrder: seq<int>
    var messageOrder: seq<int>
    var currentUserId: int
    var currentCartridgeId: int
    var currentMessageId: int

    /** Each map is listed exactly, in increasing order, by its key order;
        every id comes from its counter and every record carries its key. */
    ghost predicate Valid()
      reads this
    {
      UsersValid() && CartridgesValid() && MessagesValid()
    }

    ghost predicate UsersValid()
      reads this`users, this`userOrder, this`currentUserId
    {
      && Ordered(userOrder, users.Keys, currentUserId)
      && (forall k :: k in users ==> users[k].id == k)
    }

    ghost predicate CartridgesValid()
      reads this`cartridges, this`cartridgeOrder, this`currentCartridgeId
    {
      && Ordered(cartridgeOrder, cartridges.Keys, currentCartridgeId)
      && (forall k :: k in cartridges ==> cartridges[k].id == k)
    }

    ghost predicate MessagesValid()
      reads this`messages, this`messageOrder, this`currentMessageId
    {
      && Ordered(messageOrder, messages.Keys, currentMessageId)
      && (forall k :: k in messages ==> messages[k].id == k)
    }

    /** An empty store with all counters at 1, seeded with the default
        cartridges, which get ids 1, 2 and 3; exactly the first is active. */
    constructor (now: int)
      ensures Valid()
      ensures users == map[] && messages == map[]
      ensures currentUserId == 1 && currentMessageId == 1 && currentCartridgeId == 4
      ensures |cartridgeOrder| == 3 && forall j :: 0 <= j < 3 ==> cartridgeOrder[j] == j + 1
      ensures forall k :: k in cartridges <==> 1 <= k <= 3
      ensures forall k :: k in cartridges ==> cartridges[k] == NewCartridge(k, DefaultCartridges()[k - 1], now)
      ensures ActiveIds(cartridges) == {1}
      ensures AtMostOneActive(cartridges)
    {
      users, cartridges, messages := map[], map[], map[];
      userOrder, cartridgeOrder, messageOrder := [], [], [];
      currentUserId, currentCartridgeId, currentMessageId := 1, 1, 1;
      new;
      SeedCartridges(DefaultCartridges(), now);
      SeededActivity(cartridges, now);
    }

    /** The loop of `initializeDefaultCartridges`: creates each seed in turn
        in an empty cartridge map, so seed `k` gets id `k + 1`. */
    method SeedCartridges(seeds: seq<InsertCartridge>, now: int)
      requires Valid()
      requires cartridges == map[] && cartridgeOrder == [] && currentCartridgeId == 1
      modifies this`cartridges, this`cartridgeOrder, this`currentCartridgeId
      ensures Valid()
      ensures currentCartridgeId == |seeds| + 1
      ensures |cartridgeOrder| == |seeds| && forall j :: 0 <= j < |seeds| ==> cartridgeOrder[j] == j + 1
      ensures forall k :: k in cartridges <==> 1 <= k <= |seeds|
      ensures forall k :: k in cartridges ==> cartridges[k] == NewCartridge(k, seeds[k - 1], now)
    {
      for i := 0 to |seeds|
        invariant Valid()
        invariant currentCartridgeId == i + 1
        invariant FirstIds(cartridgeOrder, i)
        invariant Seeded(cartridges, seeds, i, now)
      {
        var c := CreateCartridge(seeds[i], now);
        SeededStep(cartridges, cartridgeOrder, seeds, i, now);
      }
    }

    // -------------------------------------------------------------------
    // Users
    // -------------------------------------------------------------------

    function GetUser(id: int): (r: Option<User>)
      reads this
      requires Valid()
      ensures r.Some? <==> id in users
      ensures r.Some? ==> r.value == users[id] && r.value.id == id
    {
      if id in users then Some(users[id]) else None
    }

    /** The first user, in insertion order, with the given name. */
    function GetUserByUsername(username: string): (r: Option<User>)
      reads this
      requires Valid()
      ensures r.Some? ==> r.value.id in users && users[r.value.id] == r.value && r.value.username == username
      ensures r.Some? ==> forall k :: k in users && k < r.value.id ==> users[k].username != username
      ensures r.None? ==> forall k :: k in users ==> users[k].username != username
    {
      FindFirstIsLowestId(userOrder, users, username);
      FindByUsername(userOrder, users, username)
    }

    method CreateUser(u: InsertUser) returns (r: User)
      requires Valid()
      modifies this`users, this`userOrder, this`currentUserId
      ensures Valid()
      ensures r == User(old(currentUserId), u.username, u.password)
      ensures r.id !in old(users)
      ensures users == old(users)[r.id := r]
      ensures userOrder == old(userOrder) + [r.id]
      ensures currentUserId == old(currentUserId) + 1
    {
      var id := currentUserId;
      OrderedAppend(userOrder, users.Keys, id);
      currentUserId := currentUserId + 1;
      r := User(id, u.username, u.password);
      users := users[id := r];
      userOrder := userOrder + [id];
    }

    // -------------------------------------------------------------------
    // Cartridges
    // -------------------------------------------------------------------

    /** All cartridges, most recently updated first; cartridges updated at
        the same time keep insertion order, which is increasing id order. */
    function GetCartridges(): (r: seq<Cartridge>)
      reads this
      requires Valid()
      ensures forall c :: c in r ==> c.id in cartridges && cartridges[c.id] == c
      ensures forall k :: k in cartridges ==> cartridges[k] in r
      ensures forall i, j :: 0 <= i < j < |r| ==> r[i].updatedAt >= r[j].updatedAt
      ensures forall i, j :: 0 <= i < j < |r| && r[i].updatedAt == r[j].updatedAt ==> r[i].id < r[j].id
      ensures forall i, j :: 0 <= i < j < |r| ==> r[i].id != r[j].id
      ensures |r| == 0 <==> cartridges == map[]
    {
      CartridgeListing(cartridgeOrder, cartridges, currentCartridgeId);
      Sorting.SortBy(Values(cartridgeOrder, cartridges), RecencyKey)
    }

    function GetCartridge(id: int): (r: Option<Cartridge>)
      reads this
      requires Valid()
      ensures r.Some? <==> id in cartridges
      ensures r.Some? ==> r.value == cartridges[id] && r.value.id == id
    {
      if id in cartridges then Some(cartridges[id]) else None
    }

    /** Stores a new cartridge under the next id, stamped with `now` as both
        creation and update time. */
    method CreateCartridge(c: InsertCartridge, now: int) returns (r: Cartridge)
      requires Valid()
      modifies this`cartridges, this`cartridgeOrder, this`currentCartridgeId
      ensures Valid()
      ensures r == NewCartridge(old(currentCartridgeId), c, now)
      ensures r.id !in old(cartridges)
      ensures forall k :: k in old(cartridges) ==> k < r.id
      ensures cartridges == old(cartridges)[r.id := r]
      ensures cartridgeOrder == old(cartridgeOrder) + [r.id]
      ensures currentCartridgeId == old(currentCartridgeId) + 1
      ensures c.isActive != Some(true) ==> ActiveIds(cartridges) == old(ActiveIds(cartridges))
    {
      var id := currentCartridgeId;
      OrderedAppend(cartridgeOrder, cartridges.Keys, id);
      currentCartridgeId := currentCartridgeId + 1;
      r := NewCartridge(id, c, now);
      cartridges := cartridges[id := r];
      cartridgeOrder := cartridgeOrder + [id];
    }

    /** Overlays `updates` on the stored cartridge; an unknown id changes
        nothing and yields `None`. */
    method UpdateCartridge(id: int, updates: Schema.UpdateCartridge, now: int) returns (r: Option<Cartridge>)
      requires Valid()
      modifies this`cartridges
      ensures Valid()
      ensures id !in old(cartridges) ==> r == None && cartridges == old(cartridges)
      ensures id in old(cartridges) ==> r == Some(ApplyUpdate(old(cartridges)[id], updates, now))
      ensures id in old(cartridges) ==> cartridges == old(cartridges)[id := r.value]
      ensures updates.isActive == None ==> ActiveIds(cartridges) == old(ActiveIds(cartridges))
    {
      if id !in cartridges {
        return None;
      }
      var updated := ApplyUpdate(cartridges[id], updates, now);
      cartridges := cartridges[id := updated];
      r := Some(updated);
    }

    method DeleteCartridge(id: int) returns (existed: bool)
      requires Valid()
      modifies this`cartridges, this`cartridgeOrder
      ensures Valid()
      ensures existed <==> id in old(cartridges)
      ensures cartridges == old(cartridges) - {id}
      ensures cartridgeOrder == Without(old(cartridgeOrder), id)
      ensures ActiveIds(cartridges) == old(ActiveIds(cartridges)) - {id}
    {
      existed := id in cartridges;
      cartridges := cartridges - {id};
      cartridgeOrder := Without(cartridgeOrder, id);
    }

    /** Deactivates every active cartridge, then activates `id` if it is
        stored. */
    method SetActiveCartridge(id: int)
      requires Valid()
      modifies this`cartridges
      ensures Valid()
      ensures cartridges == Activated(old(cartridges), id)
    {
      ghost var before := cartridges;
      DeactivateAll();
      ActivatedAfterReset(before, cartridges, id);
      if id in cartridges {
        cartridges := cartridges[id := cartridges[id].(isActive := true)];
      }
    }

    /** The loop of `setActiveCartridge`: visits the cartridges in map order
        and clears each flag that is set. */
    method DeactivateAll()
      requires forall k :: k in cartridges <==> k in cartridgeOrder
      modifies this`cartridges
      ensures cartridges.Keys == old(cartridges).Keys
      ensures forall k :: k in cartridges ==> cartridges[k] == old(cartridges)[k].(isActive := false)
    {
      var order := cartridgeOrder;
      var i := 0;
      while i < |order|
        invariant 0 <= i <= |order|
        invariant cartridges.Keys == old(cartridges).Keys
        invariant forall k :: k in order[..i] && k in cartridges ==>
          cartridges[k] == old(cartridges)[k].(isActive := false)
        invariant forall k :: k in cartridges && k !in order[..i] ==> cartridges[k] == old(cartridges)[k]
      {
        var cid := order[i];
        assert order[..i + 1] == order[..i] + [cid];
        var c := cartridges[cid];
        if c.isActive {
          cartridges := cartridges[cid := c.(isActive := false)];
        }
        i := i + 1;
      }
      assert order[..i] == order;
    }

    // -------------------------------------------------------------------
    // Messages
    // -------------------------------------------------------------------

    /** Every message, oldest first; messages created at the same time keep
        insertion order, which is increasing id order. */
    function Chronological(): (r: seq<Message>)
      reads this`messages, this`messageOrder, this`currentMessageId
      requires MessagesValid()
      ensures forall m :: m in r ==> m.id in messages && messages[m.id] == m
      ensures forall k :: k in messages ==> messages[k] in r
      ensures forall i, j :: 0 <= i < j < |r| ==> r[i].createdAt <= r[j].createdAt
      ensures forall i, j :: 0 <= i < j < |r| && r[i].createdAt == r[j].createdAt ==> r[i].id < r[j].id
      ensures |r| == |messageOrder|
    {
      MessageListing(messageOrder, messages, currentMessageId);
      Sorting.SortBy(Values(messageOrder, messages), ChronoKey)
    }

    /** The last `limit` messages in chronological order, or all of them
        when `limit` is 0; a negative limit drops that many from the front. */
    function GetMessages(limit: int): (r: seq<Message>)
      reads this`messages, this`messageOrder, this`currentMessageId
      requires MessagesValid()
      ensures limit == 0 ==> r == Chronological()
      ensures limit > 0 ==> |r| == Js.Min(limit, |messageOrder|)
      ensures limit < 0 ==> |r| == Js.Max(|messageOrder| + limit, 0)
      ensures |r| <= |messageOrder| && r == Chronological()[|messageOrder| - |r|..]
    {
      var all := Chronological();
      if limit != 0 then Js.SliceFrom(all, -limit) else all
    }

    /** The messages generated against `cartridgeId`, oldest first. */
    function GetMessagesByCartridge(cartridgeId: int): (r: seq<Message>)
      reads this`messages, this`messageOrder, this`currentMessageId
      requires MessagesValid()
      ensures forall m :: m in r ==> m.id in messages && messages[m.id] == m && m.cartridgeId == Some(cartridgeId)
      ensures forall k :: k in messages && messages[k].cartridgeId == Some(cartridgeId) ==> messages[k] in r
      ensures forall i, j :: 0 <= i < j < |r| ==> r[i].createdAt <= r[j].createdAt
      ensures forall i, j :: 0 <= i < j < |r| && r[i].createdAt == r[j].createdAt ==> r[i].id < r[j].id
      ensures forall i, j :: 0 <= i < j < |r| ==> r[i].id != r[j].id
    {
      CartridgeMessageListing(messageOrder, messages, currentMessageId, cartridgeId);
      Sorting.SortBy(OfCartridge(Values(messageOrder, messages), cartridgeId), ChronoKey)
    }

    method CreateMessage(m: InsertMessage, now: int) returns (r: Message)
      requires Valid()
      modifies this`messages, this`messageOrder, this`currentMessageId
      ensures Valid()
      ensures r == Message(old(currentMessageId), m.content, m.role, m.cartridgeId, m.selectedCartridgeId,
                           m.matchScore, m.tokenCount, m.cost, m.metadata, now)
      ensures r.id !in old(messages)
      ensures messages == old(messages)[r.id := r]
      ensures messageOrder == old(messageOrder) + [r.id]
      ensures currentMessageId == old(currentMessageId) + 1
    {
      var id := currentMessageId;
      OrderedAppend(messageOrder, messages.Keys, id);
      currentMessageId := currentMessageId + 1;
      r := Message(id, m.content, m.role, m.cartridgeId, m.selectedCartridgeId,
                   m.matchScore, m.tokenCount, m.cost, m.metadata, now);
      messages := messages[id := r];
      messageOrder := messageOrder + [id];
    }
  }
}
