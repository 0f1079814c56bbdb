/** The extension's session object: the cached room directory, the room the
    next message goes to, the remembered default room, and the building of
    the requests it sends. */
module Extension {
  import opened Wrappers
  import opened RoomCache
  import opened Messages

  /** The settings an instance is created from. */
  datatype Settings = Settings(accessToken: string, defaultRoom: string, rememberRoom: bool)

  /** Reading the `idobata` configuration: no instance without a non-empty
      access token; a missing or empty default room is the empty name and a
      missing remember flag is false. */
  function LoadConfiguration(accessToken: Option<string>, defaultRoom: Option<string>,
                             rememberRoom: Option<bool>): (r: Option<Settings>)
    ensures r.None? <==> accessToken.None? || accessToken.value == ""
    ensures r.Some? ==> r.value.accessToken == accessToken.value
    ensures r.Some? ==> r.value.defaultRoom == (if defaultRoom.Some? then defaultRoom.value else "")
    ensures r.Some? ==> (r.value.rememberRoom <==> rememberRoom == Some(true))
  {
    if accessToken.None? || accessToken.value == "" then None
    else
      Some(Settings(accessToken.value,
                    match defaultRoom case Some(d) => d case None => "",
                    match rememberRoom case Some(b) => b case None => false))
  }

  class Idobata {
    const token: string
    /** The room dictionary, name to id. */
    var rooms: map<string, string>
    /** The dictionary's keys in the order the object enumerates them. */
    var keys: seq<string>
    /** The room the next message goes to; empty when none is selected. */
    var roomId: string
    var defaultRoom: string
    var rememberRoom: bool

    /** `keys` lists every key of `rooms` once and nothing else. */
    ghost predicate Valid()
      reads this
    {
      Distinct(keys) && forall k :: k in rooms <==> k in keys
    }

    constructor (token: string, defaultRoom: string, remember: bool)
      ensures Valid()
      ensures this.token == token && this.defaultRoom == defaultRoom && rememberRoom == remember
      ensures rooms == map[] && keys == [] && roomId == ""
    {
      this.token := token;
      this.defaultRoom := defaultRoom;
      this.rememberRoom := remember;
      rooms, keys, roomId := map[], [], "";
    }

    /** The room names to offer, default room first: the keys are visited in
        order, the default room is put at the front and every other key at
        the back. */
    method GetRoomNames() returns (names: seq<string>)
      requires Valid()
      ensures names == DisplayOrder(keys, defaultRoom)
      ensures multiset(names) == multiset(keys) && |names| == |keys| && Distinct(names)
      ensures defaultRoom in rooms ==> names == [defaultRoom] + Without(keys, defaultRoom)
      ensures defaultRoom !in rooms ==> names == keys
    {
      names := [];
      var i := 0;
      while i < |keys|
        invariant 0 <= i <= |keys|
        invariant names == DisplayOrder(keys[..i], defaultRoom)
      {
        var name := keys[i];
        assert keys[..i + 1][..i] == keys[..i];
        if name == defaultRoom {
          names := [name] + names;
        } else {
          names := names + [name];
        }
        i := i + 1;
      }
      assert keys[..i] == keys;
      DisplayOrderPermutation(keys, defaultRoom);
      DisplayOrderDistinct(keys, defaultRoom);
      if defaultRoom in rooms {
        DisplayOrderFront(keys, defaultRoom);
      } else {
        DisplayOrderAbsent(keys, defaultRoom);
      }
    }

    /** The room names, fetching the room list first when the cache is empty.
        `response` stands for the edges the room-list query returns, or None
        when the request or the reading of its answer fails; it is only
        looked at when that query is issued, and `request` is the query
        issued, if any. */
    method GetRoomNamesAsync(response: Option<seq<Edge>>)
      returns (request: Option<Request>, names: Option<seq<string>>)
      requires Valid()
      modifies this`rooms, this`keys
      ensures Valid()
      ensures old(keys) != [] ==>
        request == None && rooms == old(rooms) && keys == old(keys)
      ensures old(keys) == [] ==> request == Some(RoomListRequest(token))
      ensures old(keys) == [] && response.None? ==>
        names == None && rooms == old(rooms) && keys == old(keys)
      ensures old(keys) == [] && response.Some? ==>
        rooms == MapOf(response.value) && keys == NamesOf(response.value)
      ensures names.Some? ==> names.value == DisplayOrder(keys, defaultRoom)
      ensures old(keys) != [] || response.Some? ==> names.Some?
    {
      if |keys| > 0 {
        request := None;
        var ns := GetRoomNames();
        names := Some(ns);
        return;
      }
      request := Some(RoomListRequest(token));
      if response.None? {
        names := None;
        return;
      }
      var edges := response.value;
      assert rooms == map[] by {
        assert forall k :: k !in rooms;
      }
      var i := 0;
      while i < |edges|
        invariant 0 <= i <= |edges|
        invariant keys == NamesOf(edges[..i]) && rooms == MapOf(edges[..i])
        invariant Valid()
      {
        var edge := edges[i];
        assert edges[..i + 1][..i] == edges[..i];
        if edge.name != PROTO {
          if edge.name !in rooms {
            keys := keys + [edge.name];
          }
          rooms := rooms[edge.name := edge.id];
        }
        i := i + 1;
      }
      assert edges[..i] == edges;
      var ns := GetRoomNames();
      names := Some(ns);
    }

    /** The id of the room called `roomName`, or empty when there is none;
        when remembering is on, a found room becomes the default room. */
    method GetRoomId(roomName: string) returns (id: string)
      requires Valid()
      modifies this`defaultRoom
      ensures id == if roomName in rooms then rooms[roomName] else ""
      ensures defaultRoom == if roomName in rooms && rememberRoom then roomName else old(defaultRoom)
      ensures rooms == old(rooms) && keys == old(keys) && Valid()
    {
      id := "";
      var i := 0;
      while i < |keys|
        invariant 0 <= i <= |keys|
        invariant id == if roomName in keys[..i] then rooms[roomName] else ""
        invariant defaultRoom ==
          if roomName in keys[..i] && rememberRoom then roomName else old(defaultRoom)
      {
        var name := keys[i];
        assert keys[..i + 1] == keys[..i] + [name];
        if name == roomName {
          id := rooms[name];
          if rememberRoom {
            defaultRoom := name;
          }
        }
        i := i + 1;
      }
      assert keys[..i] == keys;
    }

    /** What follows the quick pick: `pick` is the user's choice, None when
        the pick was dismissed. A dismissed or empty pick clears the
        selection; any other pick selects the id its name resolves to, which
        is empty for an unknown name. The result is the name picked, or empty. */
    method SelectRoom(pick: Option<string>) returns (selected: string)
      requires Valid()
      modifies this`roomId, this`defaultRoom
      ensures rooms == old(rooms) && keys == old(keys) && Valid()
      ensures pick.None? || pick.value == "" ==>
        selected == "" && roomId == "" && defaultRoom == old(defaultRoom)
      ensures pick.Some? && pick.value != "" ==>
        && selected == pick.value
        && roomId == (if pick.value in rooms then rooms[pick.value] else "")
        && defaultRoom == (if pick.value in rooms && rememberRoom then pick.value else old(defaultRoom))
    {
      if pick.None? || pick.value == "" {
        roomId := "";
        selected := "";
      } else {
        roomId := GetRoomId(pick.value);
        selected := pick.value;
      }
    }

    /** The request that posts `text` to the selected room, or none at all
        when no room is selected. */
    method SendText(text: string) returns (request: Option<Request>)
      ensures request.None? <==> roomId == ""
      ensures request.Some? ==>
        && request.value == CreateMessageRequest(token, roomId, text)
        && request.value.query == CREATE_MESSAGE_MUTATION
        && request.value.input == Some(MessageInput(roomId, text, MARKDOWN))
        && request.value.uri == API_URL
        && request.value.authorization == "Bearer " + token
    {
      if roomId == "" {
        return None;
      }
      request := Some(CreateMessageRequest(token, roomId, text));
    }
  }

  /** A session from start to message: two rooms are fetched with "ops" as the
      default room, "ops" is offered first, a second listing uses the cache,
      picking "dev" sends to room "1", and after a dismissed pick nothing is
      sent. */
  method SessionExample()
    returns (names: Option<seq<string>>, refetch: Option<Request>,
             sent: Option<Request>, afterCancel: Option<Request>)
    ensures names == Some(["ops", "dev"])
    ensures refetch == None
    ensures sent == Some(CreateMessageRequest("token", "1", "hello"))
    ensures afterCancel == None
  {
    var session := new Idobata("token", "ops", true);
    var edges := [Edge("dev", "1"), Edge("ops", "2")];
    assert edges[..1] == [Edge("dev", "1")];
    assert NamesOf(edges) == ["dev", "ops"];
    assert MapOf(edges) == map["dev" := "1", "ops" := "2"];
    var fetch;
    fetch, names := session.GetRoomNamesAsync(Some(edges));
    assert ["dev", "ops"][..1] == ["dev"] && ["dev"][..0] == [];
    assert DisplayOrder(["dev", "ops"], "ops") == ["ops", "dev"];
    var cached;
    refetch, cached := session.GetRoomNamesAsync(None);
    var picked := session.SelectRoom(Some("dev"));
    sent := session.SendText("hello");
    picked := session.SelectRoom(None);
    afterCancel := session.SendText("hello");
  }
}
