/** The realtime subscription index: which socket client listens to which club, player and staff
    member, kept both ways round. */
module EventsIndex {

  type Client = string

  /** A Map from a key to a Set; a missing key reads as the empty set. */
  type Index = map<string, set<string>>

  function Get(m: Index, k: string): set<string> {
    if k in m then m[k] else {}
  }

  function Add(m: Index, k: string, v: string): Index {
    m[k := Get(m, k) + {v}]
  }

  /** Set.delete on an existing entry, which stays even when it becomes empty. */
  function Drop(m: Index, k: string, v: string): Index {
    if k in m then m[k := m[k] - {v}] else m
  }

  /** Set.delete, and Map.delete once the set is empty. */
  function DropAndPrune(m: Index, k: string, v: string): Index {
    if k !in m then m
    else if m[k] - {v} == {} then map x | x in m && x != k :: m[x]
    else m[k := m[k] - {v}]
  }

  datatype Channel = Club | Player | Staff

  function Prefix(c: Channel): string {
    match c
    case Club => "club:"
    case Player => "player:"
    case Staff => "staff:"
  }

  function Tag(c: Channel, id: string): string {
    Prefix(c) + id
  }

  /** String.replace with a string pattern and an empty replacement: the first occurrence goes. */
  function ReplaceFirst(s: string, pattern: string): string {
    if pattern <= s then s[|pattern|..]
    else if |s| == 0 then s
    else [s[0]] + ReplaceFirst(s[1..], pattern)
  }

  /** Tags of different channels or ids never collide, whatever characters the ids contain, and the
      id comes back by stripping the prefix the tag starts with. */
  lemma TagsUnambiguous(c: Channel, a: string, d: Channel, b: string)
    ensures Tag(c, a) == Tag(d, b) <==> c == d && a == b
    ensures Prefix(d) <= Tag(c, a) <==> c == d
    ensures ReplaceFirst(Tag(c, a), Prefix(c)) == a
  {
    assert Tag(c, a)[..|Prefix(c)|] == Prefix(c) && Tag(c, a)[|Prefix(c)|..] == a;
    assert Tag(d, b)[..|Prefix(d)|] == Prefix(d) && Tag(d, b)[|Prefix(d)|..] == b;
    if Prefix(d) <= Tag(c, a) {
      assert Tag(c, a)[0] == Prefix(c)[0] && Tag(c, a)[0] == Prefix(d)[0];
    }
  }

  /** The four maps. `mine` is client -> tags, the others id -> clients. */
  datatype Maps = Maps(mine: Index, clubs: Index, players: Index, staff: Index)

  function Listeners(m: Maps, c: Channel): Index {
    match c
    case Club => m.clubs
    case Player => m.players
    case Staff => m.staff
  }

  /** A client is listed under an id exactly when it holds the tag; every tag is of that kind; and no
      listener set is empty. */
  ghost predicate Mirrored(m: Maps) {
    && (forall c, id, client :: client in Get(Listeners(m, c), id) <==> Tag(c, id) in Get(m.mine, client))
    && (forall client, tag :: tag in Get(m.mine, client) ==> exists c, id :: tag == Tag(c, id))
    && (forall c, id :: id in Listeners(m, c) ==> Listeners(m, c)[id] != {})
  }

  /** What the clients hold determines the three listener maps completely. */
  lemma ListenersDetermined(m: Maps, n: Maps, c: Channel)
    requires Mirrored(m) && Mirrored(n)
    requires forall client :: Get(m.mine, client) == Get(n.mine, client)
    ensures Listeners(m, c) == Listeners(n, c)
  {
    var a, b := Listeners(m, c), Listeners(n, c);
    forall id
      ensures Get(a, id) == Get(b, id)
      ensures id in a <==> id in b
    {
      forall client
        ensures client in Get(a, id) <==> client in Get(b, id)
      {
        assert client in Get(a, id) <==> Tag(c, id) in Get(m.mine, client);
        assert client in Get(b, id) <==> Tag(c, id) in Get(n.mine, client);
      }
      if id in a { var x :| x in a[id]; assert x in Get(b, id); }
      if id in b { var x :| x in b[id]; assert x in Get(a, id); }
    }
    assert forall id :: id in a ==> a[id] == Get(a, id) == Get(b, id) == b[id];
  }

  function AddBoth(m: Maps, client: Client, c: Channel, id: string): Maps {
    var mine := Add(m.mine, client, Tag(c, id));
    match c
    case Club => m.(mine := mine, clubs := Add(m.clubs, id, client))
    case Player => m.(mine := mine, players := Add(m.players, id, client))
    case Staff => m.(mine := mine, staff := Add(m.staff, id, client))
  }

  function DropBoth(m: Maps, client: Client, c: Channel, id: string): Maps {
    var mine := Drop(m.mine, client, Tag(c, id));
    match c
    case Club => m.(mine := mine, clubs := DropAndPrune(m.clubs, id, client))
    case Player => m.(mine := mine, players := DropAndPrune(m.players, id, client))
    case Staff => m.(mine := mine, staff := DropAndPrune(m.staff, id, client))
  }

  lemma AddedListeners(m: Maps, client: Client, c: Channel, id: string, d: Channel, key: string)
    ensures Get(Listeners(AddBoth(m, client, c, id), d), key)
         == Get(Listeners(m, d), key) + (if c == d && id == key then {client} else {})
    ensures key in Listeners(AddBoth(m, client, c, id), d) <==> key in Listeners(m, d) || (c == d && id == key)
  {
  }

  lemma AddedTags(m: Maps, client: Client, c: Channel, id: string, x: Client)
    ensures Get(AddBoth(m, client, c, id).mine, x) == Get(m.mine, x) + (if x == client then {Tag(c, id)} else {})
  {
  }

  lemma AddBothMirrors(m: Maps, client: Client, c: Channel, id: string)
    requires Mirrored(m)
    ensures Mirrored(AddBoth(m, client, c, id))
    ensures forall x ::
              Get(AddBoth(m, client, c, id).mine, x) == Get(m.mine, x) + (if x == client then {Tag(c, id)} else {})
  {
    hide Tag, AddBoth;
    var n := AddBoth(m, client, c, id);
    forall d, key, x
      ensures x in Get(Listeners(n, d), key) <==> Tag(d, key) in Get(n.mine, x)
    {
      TagsUnambiguous(c, id, d, key);
      AddedListeners(m, client, c, id, d, key);
      AddedTags(m, client, c, id, x);
      assert x in Get(Listeners(m, d), key) <==> Tag(d, key) in Get(m.mine, x);
    }
    forall x
      ensures Get(n.mine, x) == Get(m.mine, x) + (if x == client then {Tag(c, id)} else {})
    {
      AddedTags(m, client, c, id, x);
    }
    forall x, tag | tag in Get(n.mine, x)
      ensures exists d, key :: tag == Tag(d, key)
    {
      assert tag in Get(m.mine, x) || tag == Tag(c, id);
    }
    forall d, key | key in Listeners(n, d)
      ensures Listeners(n, d)[key] != {}
    {
      AddedListeners(m, client, c, id, d, key);
      assert key in Listeners(m, d) ==> Listeners(m, d)[key] != {};
    }
  }

  lemma DroppedListeners(m: Maps, client: Client, c: Channel, id: string, d: Channel, key: string)
    ensures Get(Listeners(DropBoth(m, client, c, id), d), key)
         == Get(Listeners(m, d), key) - (if c == d && id == key then {client} else {})
    ensures key in Listeners(DropBoth(m, client, c, id), d) ==>
      key in Listeners(m, d) && (Listeners(m, d)[key] != {} ==> Listeners(DropBoth(m, client, c, id), d)[key] != {})
  {
  }

  lemma DroppedTags(m: Maps, client: Client, c: Channel, id: string, x: Client)
    ensures Get(DropBoth(m, client, c, id).mine, x) == Get(m.mine, x) - (if x == client then {Tag(c, id)} else {})
    ensures DropBoth(m, client, c, id).mine.Keys == m.mine.Keys
  {
  }

  lemma DropBothMirrors(m: Maps, client: Client, c: Channel, id: string)
    requires Mirrored(m)
    ensures Mirrored(DropBoth(m, client, c, id))
    ensures forall x ::
              Get(DropBoth(m, client, c, id).mine, x) == Get(m.mine, x) - (if x == client then {Tag(c, id)} else {})
    ensures DropBoth(m, client, c, id).mine.Keys == m.mine.Keys
  {
    hide Tag, DropBoth;
    var n := DropBoth(m, client, c, id);
    forall d, key, x
      ensures x in Get(Listeners(n, d), key) <==> Tag(d, key) in Get(n.mine, x)
    {
      TagsUnambiguous(c, id, d, key);
      DroppedListeners(m, client, c, id, d, key);
      DroppedTags(m, client, c, id, x);
      assert x in Get(Listeners(m, d), key) <==> Tag(d, key) in Get(m.mine, x);
    }
    DroppedTags(m, client, c, id, client);
    forall x
      ensures Get(n.mine, x) == Get(m.mine, x) - (if x == client then {Tag(c, id)} else {})
    {
      DroppedTags(m, client, c, id, x);
    }
    forall x, tag | tag in Get(n.mine, x)
      ensures exists d, key :: tag == Tag(d, key)
    {
      assert tag in Get(m.mine, x);
    }
    forall d, key | key in Listeners(n, d)
      ensures Listeners(n, d)[key] != {}
    {
      DroppedListeners(m, client, c, id, d, key);
      assert key in Listeners(m, d);
    }
  }

  /** Two tags added for one client, as every subscribe call does. */
  lemma AddTwoMirrors(m: Maps, client: Client, c: Channel, id: string, d: Channel, key: string) returns (n: Maps)
    requires Mirrored(m)
    ensures n == AddBoth(AddBoth(m, client, c, id), client, d, key) && Mirrored(n)
    ensures Get(n.mine, client) == Get(m.mine, client) + {Tag(c, id), Tag(d, key)}
    ensures forall x :: x != client ==> Get(n.mine, x) == Get(m.mine, x)
  {
    hide AddBoth, Mirrored, Tag;
    AddBothMirrors(m, client, c, id);
    AddBothMirrors(AddBoth(m, client, c, id), client, d, key);
    n := AddBoth(AddBoth(m, client, c, id), client, d, key);
  }

  function Forget(m: Maps, client: Client): Maps {
    m.(mine := map x | x in m.mine && x != client :: m.mine[x])
  }

  lemma ForgetMirrors(m: Maps, client: Client)
    requires Mirrored(m) && Get(m.mine, client) == {}
    ensures Mirrored(Forget(m, client))
    ensures forall x :: Get(Forget(m, client).mine, x) == Get(m.mine, x)
    ensures forall c, id :: client !in Get(Listeners(m, c), id)
  {
    var n := Forget(m, client);
    forall c, id, x
      ensures x in Get(Listeners(n, c), id) <==> Tag(c, id) in Get(n.mine, x)
    {
      assert x in Get(Listeners(m, c), id) <==> Tag(c, id) in Get(m.mine, x);
    }
    forall x, tag | tag in Get(n.mine, x)
      ensures exists d, key :: tag == Tag(d, key)
    {
      assert tag in Get(m.mine, x);
    }
    forall c, id | id in Listeners(n, c)
      ensures Listeners(n, c)[id] != {}
    {
      assert id in Listeners(m, c);
    }
  }

  /** The simple form of removeClient: the client's entry goes, and the client goes from every set. */
  function EraseFrom(m: Index, client: Client): Index {
    map id | id in m && m[id] - {client} != {} :: m[id] - {client}
  }

  function Erase(m: Maps, client: Client): Maps {
    Maps(Forget(m, client).mine, EraseFrom(m.clubs, client), EraseFrom(m.players, client), EraseFrom(m.staff, client))
  }

  lemma EraseMirrors(m: Maps, client: Client)
    requires Mirrored(m)
    ensures Mirrored(Erase(m, client))
    ensures forall x :: Get(Erase(m, client).mine, x) == if x == client then {} else Get(m.mine, x)
  {
    var n := Erase(m, client);
    forall c, id, x
      ensures x in Get(Listeners(n, c), id) <==> Tag(c, id) in Get(n.mine, x)
    {
      assert x in Get(Listeners(m, c), id) <==> Tag(c, id) in Get(m.mine, x);
    }
    forall x, tag | tag in Get(n.mine, x)
      ensures exists d, key :: tag == Tag(d, key)
    {
      assert tag in Get(m.mine, x);
    }
  }

  /** Two mirrored indexes that agree on what every client holds, one of them erased simply. */
  lemma RemovedEverywhere(m: Maps, n: Maps, client: Client)
    requires Mirrored(m) && Mirrored(n)
    requires n.mine.Keys == m.mine.Keys - {client}
    requires forall x :: x != client ==> Get(n.mine, x) == Get(m.mine, x)
    ensures n == Erase(m, client)
  {
    EraseMirrors(m, client);
    var e := Erase(m, client);
    assert forall x :: x in e.mine ==> e.mine[x] == Get(e.mine, x) && n.mine[x] == Get(n.mine, x);
    assert e.mine == n.mine;
    ListenersDetermined(n, e, Club);
    ListenersDetermined(n, e, Player);
    ListenersDetermined(n, e, Staff);
  }

  datatype Call =
    | SubClub(client: Client, clubId: string, playerId: string)
    | SubPlayer(client: Client, playerId: string, clubId: string)
    | SubStaff(client: Client, staffId: string, clubId: string)
    | UnsubClub(client: Client, clubId: string)
    | UnsubPlayer(client: Client, playerId: string)
    | UnsubStaff(client: Client, staffId: string)
    | Remove(client: Client)

  function Serve(m: Maps, call: Call): Maps {
    match call
    case SubClub(x, club, player) =>
      var n := AddBoth(m, x, Club, club);
      if player == "" then n else AddBoth(n, x, Player, player)
    case SubPlayer(x, player, club) => AddBoth(AddBoth(m, x, Player, player), x, Club, club)
    case SubStaff(x, staff, club) => AddBoth(AddBoth(m, x, Staff, staff), x, Club, club)
    case UnsubClub(x, club) => DropBoth(m, x, Club, club)
    case UnsubPlayer(x, player) => DropBoth(m, x, Player, player)
    case UnsubStaff(x, staff) => DropBoth(m, x, Staff, staff)
    case Remove(x) => Erase(m, x)
  }

  function ServeAll(calls: seq<Call>): Maps {
    if |calls| == 0 then Maps(map[], map[], map[], map[])
    else Serve(ServeAll(calls[..|calls| - 1]), calls[|calls| - 1])
  }

  /** The tags one client should hold after a sequence of calls, from that client's calls alone. */
  function Held(calls: seq<Call>, x: Client): set<string> {
    if |calls| == 0 then {}
    else
      var held := Held(calls[..|calls| - 1], x);
      var call := calls[|calls| - 1];
      if call.client == x then HeldBy(held, call) else held
  }

  lemma ServeMirrors(m: Maps, call: Call)
    requires Mirrored(m)
    ensures Mirrored(Serve(m, call))
    ensures forall x ::
              Get(Serve(m, call).mine, x) == if x == call.client then HeldBy(Get(m.mine, x), call) else Get(m.mine, x)
  {
    hide AddBoth, DropBoth, Erase, Mirrored, Tag, Get;
    match call
    case SubClub(x, club, player) =>
      AddBothMirrors(m, x, Club, club);
      AddBothMirrors(AddBoth(m, x, Club, club), x, Player, player);
    case SubPlayer(x, player, club) => var n := AddTwoMirrors(m, x, Player, player, Club, club);
    case SubStaff(x, staff, club) => var n := AddTwoMirrors(m, x, Staff, staff, Club, club);
    case UnsubClub(x, club) => DropBothMirrors(m, x, Club, club);
    case UnsubPlayer(x, player) => DropBothMirrors(m, x, Player, player);
    case UnsubStaff(x, staff) => DropBothMirrors(m, x, Staff, staff);
    case Remove(x) => EraseMirrors(m, x);
  }

  /** What a call does to one client's tags. */
  function HeldBy(held: set<string>, call: Call): set<string> {
    match call
    case SubClub(_, club, player) => held + {Tag(Club, club)} + (if player == "" then {} else {Tag(Player, player)})
    case SubPlayer(_, player, club) => held + {Tag(Player, player), Tag(Club, club)}
    case SubStaff(_, staff, club) => held + {Tag(Staff, staff), Tag(Club, club)}
    case UnsubClub(_, club) => held - {Tag(Club, club)}
    case UnsubPlayer(_, player) => held - {Tag(Player, player)}
    case UnsubStaff(_, staff) => held - {Tag(Staff, staff)}
    case Remove(_) => {}
  }

  /** After any sequence of calls the maps mirror each other, no listener set is empty, and a client
      is listed under an id exactly when its own calls leave it holding that tag. */
  lemma {:induction false} IndexAfterAnyCalls(calls: seq<Call>)
    ensures Mirrored(ServeAll(calls))
    ensures forall x :: Get(ServeAll(calls).mine, x) == Held(calls, x)
    ensures forall c, id, x :: x in Get(Listeners(ServeAll(calls), c), id) <==> Tag(c, id) in Held(calls, x)
  {
    hide Serve, HeldBy, Tag;
    if |calls| > 0 {
      var init, call := calls[..|calls| - 1], calls[|calls| - 1];
      IndexAfterAnyCalls(init);
      ServeMirrors(ServeAll(init), call);
    }
  }

  class EventsService {
    var clientSubscriptions: Index
    var clubSubscriptions: Index
    var playerSubscriptions: Index
    var staffSubscriptions: Index

    constructor ()
      ensures Valid() && Contents() == Maps(map[], map[], map[], map[])
    {
      clientSubscriptions, clubSubscriptions, playerSubscriptions, staffSubscriptions := map[], map[], map[], map[];
    }

    function Contents(): Maps
      reads this
    {
      Maps(clientSubscriptions, clubSubscriptions, playerSubscriptions, staffSubscriptions)
    }

    ghost predicate Valid()
      reads this
    {
      Mirrored(Contents())
    }

    /** The tags a client holds. */
    function TagsOf(client: Client): set<string>
      reads this
    {
      Get(clientSubscriptions, client)
    }

    method SubscribeToClub(client: Client, clubId: string, playerId: string)
      requires Valid()
      modifies this
      ensures Contents() == Serve(old(Contents()), SubClub(client, clubId, playerId))
      ensures Valid()
      ensures TagsOf(client)
              == old(TagsOf(client)) + {Tag(Club, clubId)} + (if playerId != "" then {Tag(Player, playerId)} else {})
      ensures forall x :: x != client ==> TagsOf(x) == old(TagsOf(x))
    {
      clientSubscriptions := Add(clientSubscriptions, client, Tag(Club, clubId));
      if playerId != "" {
        clientSubscriptions := Add(clientSubscriptions, client, Tag(Player, playerId));
      }
      clubSubscriptions := Add(clubSubscriptions, clubId, client);
      if playerId != "" {
        playerSubscriptions := Add(playerSubscriptions, playerId, client);
      }
      AddBothMirrors(old(Contents()), client, Club, clubId);
      if playerId != "" {
        ghost var n := AddTwoMirrors(old(Contents()), client, Club, clubId, Player, playerId);
        assert Contents() == n;
      } else {
        assert Contents() == AddBoth(old(Contents()), client, Club, clubId);
      }
    }

    method SubscribeToPlayer(client: Client, playerId: string, clubId: string)
      requires Valid()
      modifies this
      ensures Contents() == Serve(old(Contents()), SubPlayer(client, playerId, clubId))
      ensures Valid()
      ensures TagsOf(client) == old(TagsOf(client)) + {Tag(Player, playerId), Tag(Club, clubId)}
      ensures forall x :: x != client ==> TagsOf(x) == old(TagsOf(x))
    {
      clientSubscriptions := Add(clientSubscriptions, client, Tag(Player, playerId));
      clientSubscriptions := Add(clientSubscriptions, client, Tag(Club, clubId));
      playerSubscriptions := Add(playerSubscriptions, playerId, client);
      clubSubscriptions := Add(clubSubscriptions, clubId, client);
      ghost var n := AddTwoMirrors(old(Contents()), client, Player, playerId, Club, clubId);
      assert Contents() == n;
    }

    method SubscribeToStaff(client: Client, staffUserId: string, clubId: string)
      requires Valid()
      modifies this
      ensures Contents() == Serve(old(Contents()), SubStaff(client, staffUserId, clubId))
      ensures Valid()
      ensures TagsOf(client) == old(TagsOf(client)) + {Tag(Staff, staffUserId), Tag(Club, clubId)}
      ensures forall x :: x != client ==> TagsOf(x) == old(TagsOf(x))
    {
      clientSubscriptions := Add(clientSubscriptions, client, Tag(Staff, staffUserId));
      clientSubscriptions := Add(clientSubscriptions, client, Tag(Club, clubId));
      staffSubscriptions := Add(staffSubscriptions, staffUserId, client);
      clubSubscriptions := Add(clubSubscriptions, clubId, client);
      ghost var n := AddTwoMirrors(old(Contents()), client, Staff, staffUserId, Club, clubId);
      assert Contents() == n;
    }

    method UnsubscribeFromClub(client: Client, clubId: string)
      requires Valid()
      modifies this
      ensures Contents() == Serve(old(Contents()), UnsubClub(client, clubId))
      ensures Valid() && clientSubscriptions.Keys == old(clientSubscriptions.Keys)
      ensures TagsOf(client) == old(TagsOf(client)) - {Tag(Club, clubId)}
      ensures forall x :: x != client ==> TagsOf(x) == old(TagsOf(x))
    {
      clientSubscriptions := Drop(clientSubscriptions, client, Tag(Club, clubId));
      clubSubscriptions := DropAndPrune(clubSubscriptions, clubId, client);
      DropBothMirrors(old(Contents()), client, Club, clubId);
    }

    method UnsubscribeFromPlayer(client: Client, playerId: string)
      requires Valid()
      modifies this
      ensures Contents() == Serve(old(Contents()), UnsubPlayer(client, playerId))
      ensures Valid() && clientSubscriptions.Keys == old(clientSubscriptions.Keys)
      ensures TagsOf(client) == old(TagsOf(client)) - {Tag(Player, playerId)}
      ensures forall x :: x != client ==> TagsOf(x) == old(TagsOf(x))
    {
      clientSubscriptions := Drop(clientSubscriptions, client, Tag(Player, playerId));
      playerSubscriptions := DropAndPrune(playerSubscriptions, playerId, client);
      DropBothMirrors(old(Contents()), client, Player, playerId);
    }

    method UnsubscribeFromStaff(client: Client, staffUserId: string)
      requires Valid()
      modifies this
      ensures Contents() == Serve(old(Contents()), UnsubStaff(client, staffUserId))
      ensures Valid() && clientSubscriptions.Keys == old(clientSubscriptions.Keys)
      ensures TagsOf(client) == old(TagsOf(client)) - {Tag(Staff, staffUserId)}
      ensures forall x :: x != client ==> TagsOf(x) == old(TagsOf(x))
    {
      clientSubscriptions := Drop(clientSubscriptions, client, Tag(Staff, staffUserId));
      staffSubscriptions := DropAndPrune(staffSubscriptions, staffUserId, client);
      DropBothMirrors(old(Contents()), client, Staff, staffUserId);
    }

    /** The callback of removeClient: picks the map by the tag's prefix and strips it to get the id. */
    method DropTag(client: Client, sub: string)
      requires Valid() && sub in TagsOf(client)
      modifies this
      ensures Valid() && clientSubscriptions.Keys == old(clientSubscriptions.Keys)
      ensures TagsOf(client) == old(TagsOf(client)) - {sub}
      ensures forall x :: x != client ==> TagsOf(x) == old(TagsOf(x))
    {
      ghost var c, id :| sub == Tag(c, id);
      TagsUnambiguous(c, id, Club, id);
      TagsUnambiguous(c, id, Player, id);
      TagsUnambiguous(c, id, Staff, id);
      if "club:" <= sub {
        var clubId := ReplaceFirst(sub, "club:");
        UnsubscribeFromClub(client, clubId);
      } else if "player:" <= sub {
        var playerId := ReplaceFirst(sub, "player:");
        UnsubscribeFromPlayer(client, playerId);
      } else if "staff:" <= sub {
        var staffUserId := ReplaceFirst(sub, "staff:");
        UnsubscribeFromStaff(client, staffUserId);
      }
    }

    /** Set.forEach over the client's own tags while each callback deletes from that very set: the
        next element is one that is still in the set and has not been visited, in any order. */
    method RemoveClient(client: Client)
      requires Valid()
      modifies this
      ensures Contents() == Serve(old(Contents()), Remove(client))
      ensures Valid()
      ensures client !in clientSubscriptions
      ensures forall c, id :: client !in Get(Listeners(Contents(), c), id)
      ensures forall x :: x != client ==> TagsOf(x) == old(TagsOf(x))
    {
      if client in clientSubscriptions {
        var visited: set<string> := {};
        while client in clientSubscriptions && clientSubscriptions[client] - visited != {}
          invariant Valid()
          invariant clientSubscriptions.Keys == old(clientSubscriptions.Keys)
          invariant TagsOf(client) == old(TagsOf(client)) - visited
          invariant forall x :: x != client ==> TagsOf(x) == old(TagsOf(x))
          decreases old(TagsOf(client)) - visited
        {
          var sub :| sub in clientSubscriptions[client] - visited;
          DropTag(client, sub);
          visited := visited + {sub};
        }
      }
      ForgetMirrors(Contents(), client);
      ghost var emptied := Contents();
      clientSubscriptions := map x | x in clientSubscriptions && x != client :: clientSubscriptions[x];
      assert Contents() == Forget(emptied, client);
      forall x | x != client
        ensures Get(Contents().mine, x) == Get(old(Contents()).mine, x)
      {
        assert TagsOf(x) == old(TagsOf(x));
      }
      RemovedEverywhere(old(Contents()), Contents(), client);
    }

    /** The clients an event for a player or staff member goes to. */
    method ClientsOf(isPlayer: bool, recipientId: string) returns (clients: set<Client>)
      requires Valid()
      ensures forall x :: x in clients <==> Tag(if isPlayer then Player else Staff, recipientId) in TagsOf(x)
    {
      var subs := if isPlayer then playerSubscriptions else staffSubscriptions;
      clients := Get(subs, recipientId);
      assert clients == Get(Listeners(Contents(), if isPlayer then Player else Staff), recipientId);
    }
  }
}
