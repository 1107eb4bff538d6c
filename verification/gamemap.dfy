/** `Map` (game.py:26-41): the rooms of the world and the player's current
    location, which changes only when a move finds an exit. */
module GameMap {

  import opened Wrappers
  import Text
  import Items
  import opened Directions
  import opened Rooms

  /** The rooms are stored by id; `location` is the id of the current room. */
  datatype Map = Map(rooms: seq<Room>, location: Option<RoomId>)

  /** Calling a room method on a `None` location raises `AttributeError`. */
  datatype MapError = NoLocation

  /** Every exit of every room leads to a room of the world. */
  predicate Closed(rooms: seq<Room>) {
    forall i, d :: 0 <= i < |rooms| && d in rooms[i].exits ==> rooms[i].exits[d] < |rooms|
  }

  /** Every id resolves: the ids stand for Python object references, which always do. */
  predicate Valid(m: Map) {
    && Closed(m.rooms)
    && (m.location.Some? ==> m.location.value < |m.rooms|)
  }

  /** `Map(rooms)`: the player starts in the first room, or nowhere in an empty world. */
  function NewMap(rooms: seq<Room>): (m: Map)
    ensures m.rooms == rooms
    ensures m.location.None? <==> |rooms| == 0
    ensures m.location.Some? ==> m.location.value == 0
    ensures Closed(rooms) ==> Valid(m)
  {
    Map(rooms, if |rooms| > 0 then Some(0) else None)
  }

  /** The result of `Map.move`: the room found (if any) and the map after the move. */
  datatype Moved = Moved(target: Option<RoomId>, after: Map)

  /** `Map.move(direction)`: asks the current room for the exit and goes there
      when it exists; the rooms themselves are untouched. */
  function MoveOn(m: Map, direction: string): (r: Result<Moved, MapError>)
    requires Valid(m)
    ensures r.Failure? <==> m.location.None?
    ensures r.Success? ==> r.value.target == Rooms.Move(m.rooms[m.location.value], direction)
    ensures r.Success? ==> r.value.after.rooms == m.rooms
    ensures r.Success? && r.value.target.Some? ==> r.value.after.location == r.value.target
    ensures r.Success? && r.value.target.None? ==> r.value.after == m
    ensures r.Success? ==> Valid(r.value.after)
  {
    match m.location
    case None => Failure(NoLocation)
    case Some(here) =>
      var target := Rooms.Move(m.rooms[here], direction);
      if target.Some? then
        Success(Moved(target, m.(location := target)))
      else
        Success(Moved(target, m))
  }

  /** `Map.describe_room(verbose)`: renders the current room and stores the room
      with its latch updated; no other room changes. */
  function DescribeRoom(m: Map, verbose: bool): (r: Result<(string, Map), MapError>)
    requires Valid(m)
    ensures r.Failure? <==> m.location.None?
    ensures r.Success? ==>
      var here := m.location.value;
      && r.value.0 == Rooms.Describe(m.rooms[here], verbose).text
      && r.value.1.rooms == m.rooms[here := Rooms.Describe(m.rooms[here], verbose).room]
      && r.value.1.location == m.location
      && |r.value.1.rooms| == |m.rooms|
      && !r.value.1.rooms[here].firstTime
      && (forall i :: 0 <= i < |m.rooms| && i != here ==> r.value.1.rooms[i] == m.rooms[i])
      && Valid(r.value.1)
  {
    match m.location
    case None => Failure(NoLocation)
    case Some(here) =>
      var d := Rooms.Describe(m.rooms[here], verbose);
      var m' := m.(rooms := m.rooms[here := d.room]);
      assert Closed(m'.rooms) by {
        forall i, e | 0 <= i < |m'.rooms| && e in m'.rooms[i].exits
          ensures m'.rooms[i].exits[e] < |m'.rooms|
        {
          assert m'.rooms[i].exits == m.rooms[i].exits;
        }
      }
      Success((d.text, m'))
  }

  /** `Map.possible_exits()`: the exits of the current room. */
  function PossibleExitsHere(m: Map): (r: Result<set<string>, MapError>)
    requires Valid(m)
    ensures r.Failure? <==> m.location.None?
    ensures r.Success? ==> forall s :: s in r.value ==>
      var moved := MoveOn(m, s);
      moved.Success? && moved.value.target.Some?
    ensures r.Success? ==> |r.value| == |m.rooms[m.location.value].exits|
  {
    match m.location
    case None => Failure(NoLocation)
    case Some(here) => Success(Rooms.PossibleExits(m.rooms[here]))
  }

  /** Following a sequence of canonical directions through the exits; `None`
      when some step has no exit. An independent reference for what a walk reaches. */
  function Follow(rooms: seq<Room>, start: RoomId, path: seq<Direction>): Option<RoomId>
    requires Closed(rooms) && start < |rooms|
    decreases |path|
  {
    if |path| == 0 then Some(start)
    else if path[0] in rooms[start].exits then Follow(rooms, rooms[start].exits[path[0]], path[1..])
    else None
  }

  /** A series of `Map.move` calls; the first call with no location raises. */
  function MoveAll(m: Map, directions: seq<string>): (r: Result<Map, MapError>)
    requires Valid(m)
    ensures r.Failure? <==> |directions| > 0 && m.location.None?
    ensures r.Success? ==> r.value.rooms == m.rooms && Valid(r.value)
    ensures r.Success? && m.location.Some? ==> r.value.location.Some?
    decreases |directions|
  {
    if |directions| == 0 then Success(m)
    else
      match MoveOn(m, directions[0])
      case Failure(e) => Failure(e)
      case Success(moved) => MoveAll(moved.after, directions[1..])
  }

  /** The player only ever walks along exits: wherever a series of moves ends,
      some walk of at most that many steps along the exit graph leads there
      from the start, and the rooms are unchanged. */
  lemma {:induction false} MovesFollowExits(m: Map, directions: seq<string>) returns (path: seq<Direction>)
    requires Valid(m) && m.location.Some?
    ensures MoveAll(m, directions).Success?
    ensures MoveAll(m, directions).value.rooms == m.rooms
    ensures MoveAll(m, directions).value.location.Some?
    ensures |path| <= |directions|
    ensures Follow(m.rooms, m.location.value, path) == MoveAll(m, directions).value.location
    decreases |directions|
  {
    if |directions| == 0 {
      path := [];
    } else {
      var moved := MoveOn(m, directions[0]).value;
      var rest := MovesFollowExits(moved.after, directions[1..]);
      if moved.target.Some? {
        var here := m.location.value;
        var d :| d in m.rooms[here].exits && Name(d) == directions[0]
          && moved.target.value == m.rooms[here].exits[d];
        path := [d] + rest;
        assert path[1..] == rest;
      } else {
        path := rest;
      }
    }
  }

  /** Two exits wired back to back (as `in` and `out` are in the scripted world)
      bring the player back where they started. */
  lemma {:induction false} MoveThereAndBack(m: Map, there: Direction, back: Direction)
    requires Valid(m) && m.location.Some?
    requires there in m.rooms[m.location.value].exits
    requires var next := m.rooms[m.location.value].exits[there];
      back in m.rooms[next].exits && m.rooms[next].exits[back] == m.location.value
    ensures MoveAll(m, [Name(there), Name(back)]) == Success(m)
  {
    var next := m.rooms[m.location.value].exits[there];
    var m1 := m.(location := Some(next));
    MoveAlongExit(m, there, Name(there));
    MoveAlongExit(m1, back, Name(back));
    assert m1.(location := m.location) == m;
    var ds := [Name(there), Name(back)];
    assert ds[1..] == [Name(back)] && ds[1..][1..] == [];
    assert MoveAll(m1, ds[1..]) == MoveAll(m, ds[1..][1..]);
  }

  /** Moving by the canonical name of a wired exit goes through it. */
  lemma MoveAlongExit(m: Map, d: Direction, direction: string)
    requires Valid(m) && m.location.Some?
    requires d in m.rooms[m.location.value].exits && direction == Name(d)
    ensures var target := m.rooms[m.location.value].exits[d];
      MoveOn(m, direction) == Success(Moved(Some(target), m.(location := Some(target))))
  {
    NameInjective(d, FromName(direction).value);
  }

  /** A direction that is not exactly a canonical name never moves the player,
      even when it abbreviates a wired exit. */
  lemma MoveByAliasStays(m: Map, direction: string)
    requires Valid(m) && m.location.Some?
    requires forall d :: Name(d) != direction
    ensures MoveOn(m, direction) == Success(Moved(None, m))
  {
    Rooms.MoveIgnoresAliases(m.rooms[m.location.value], direction);
  }

  /** `add_exit` under a canonical name points that direction at the target. */
  lemma WireExit(room: Room, d: Direction, target: RoomId)
    ensures AddExit(room, Name(d), target) == Success(room.(exits := room.exits[d := target]))
  {
    AliasTableWellFormed(d, d, Name(d));
    LowerCaseAlias(d, Name(d));
    ResolveAlias(d, Name(d));
  }

  lemma LowerCaseAlias(d: Direction, a: string)
    requires a in Aliases(d)
    ensures Text.Lower(a) in Aliases(d)
  {
    AliasesAreLowerCase(d, a);
    Text.LowerOfLowerCase(a);
  }

  /** The guard standing in the scripted hallway. */
  const Guard1: Items.Item := Items.NewGuard("Guard 1", None)

  /** The two-room world `TestScript.setUp` in test_game.py builds: the outside
      leads in to the hallway, where a guard stands, and the hallway leads back out. */
  function DemoWorld(outside: Room, hallway: Room): (m: Map)
    requires outside.exits == map[] && hallway.exits == map[]
    ensures Valid(m) && m.location == Some(0) && |m.rooms| == 2
    ensures m.rooms[0].exits == map[In := 1] && m.rooms[1].exits == map[Out := 0]
    ensures m.rooms[1].items == hallway.items + [Guard1]
    ensures m.rooms[0].name == outside.name && m.rooms[1].name == hallway.name
  {
    var rooms := [outside.(exits := map[In := 1]), hallway.(items := hallway.items + [Guard1], exits := map[Out := 0])];
    assert Closed(rooms) by {
      forall i, d | 0 <= i < |rooms| && d in rooms[i].exits
        ensures rooms[i].exits[d] < |rooms|
      {
        if i == 0 { assert d == In; } else { assert d == Out; }
      }
    }
    NewMap(rooms)
  }

  /** That world is what `add_item` and `add_exit` build from the two rooms. */
  lemma DemoWorldIsWired(outside: Room, hallway: Room)
    requires outside.exits == map[] && hallway.exits == map[]
    ensures AddExit(outside, Name(In), 1).Success?
    ensures AddExit(AddItem(hallway, Guard1), Name(Out), 0).Success?
    ensures DemoWorld(outside, hallway) ==
      NewMap([AddExit(outside, Name(In), 1).value, AddExit(AddItem(hallway, Guard1), Name(Out), 0).value])
  {
    WireExit(outside, In, 1);
    WireExit(AddItem(hallway, Guard1), Out, 0);
  }

  /** Every render of the current room shows its name and the name of every item in it. */
  lemma DescribeRoomShowsNameAndItems(m: Map, verbose: bool)
    requires Valid(m) && m.location.Some?
    ensures DescribeRoom(m, verbose).Success?
    ensures var here := m.rooms[m.location.value];
      && Text.Occurs(here.name, DescribeRoom(m, verbose).value.0)
      && forall i :: 0 <= i < |here.items| ==> Text.Occurs(here.items[i].name, DescribeRoom(m, verbose).value.0)
  {
    var here := m.rooms[m.location.value];
    var text := DescribeRoom(m, verbose).value.0;
    DescribeShape(here, verbose);
    NamePrefixOccurs(here.name, text);
    var listing := ShowItems(here.items);
    forall i | 0 <= i < |here.items| ensures Text.Occurs(here.items[i].name, text) {
      ShowItemsListsEveryItem(here.items, i);
      SuffixOccurs(here.items[i].name, listing, text);
    }
  }

  lemma SuffixOccurs(needle: string, tail: string, text: string)
    requires Text.Occurs(needle, tail)
    requires |text| >= |tail| && text[|text| - |tail|..] == tail
    ensures Text.Occurs(needle, text)
  {
    assert text == text[..|text| - |tail|] + tail + "";
    Text.OccursInside(needle, text[..|text| - |tail|], tail, "");
  }

  /** The first render of the scripted world shows the outside. */
  lemma DemoFirstRender(outside: Room, hallway: Room)
    requires outside.exits == map[] && hallway.exits == map[]
    ensures DescribeRoom(DemoWorld(outside, hallway), false).Success?
    ensures Text.Occurs(outside.name, DescribeRoom(DemoWorld(outside, hallway), false).value.0)
  {
    DescribeRoomShowsNameAndItems(DemoWorld(outside, hallway), false);
  }

  /** After that render, "in" takes the player to the hallway, which the render left untouched. */
  lemma DemoEnter(outside: Room, hallway: Room)
    requires outside.exits == map[] && hallway.exits == map[]
    ensures var seen := DescribeRoom(DemoWorld(outside, hallway), false).value.1;
      && MoveOn(seen, "in").Success?
      && MoveOn(seen, "in").value.after.location == Some(1)
      && MoveOn(seen, "in").value.after.rooms[1] == DemoWorld(outside, hallway).rooms[1]
  {
    var m := DemoWorld(outside, hallway);
    var seen := DescribeRoom(m, false).value.1;
    assert seen.rooms[1] == m.rooms[1];
    assert seen.rooms[0].exits == map[In := 1];
    MoveAlongExit(seen, In, "in");
  }

  /** Rendering the hallway there names it and the guard. */
  lemma DemoHallwayRender(outside: Room, hallway: Room)
    requires outside.exits == map[] && hallway.exits == map[]
    ensures var inside := MoveOn(DescribeRoom(DemoWorld(outside, hallway), false).value.1, "in").value.after;
      && DescribeRoom(inside, false).Success?
      && Text.Occurs(hallway.name, DescribeRoom(inside, false).value.0)
      && Text.Occurs("Guard 1", DescribeRoom(inside, false).value.0)
  {
    DemoEnter(outside, hallway);
    var inside := MoveOn(DescribeRoom(DemoWorld(outside, hallway), false).value.1, "in").value.after;
    DescribeRoomShowsNameAndItems(inside, false);
    var items := inside.rooms[1].items;
    assert items[|items| - 1] == Guard1;
  }

  lemma NamePrefixOccurs(name: string, text: string)
    requires |text| > |name| && text[..|name| + 1] == name + "\n"
    ensures Text.Occurs(name, text)
  {
    assert Text.OccursAt(name, text, 0);
  }
}
