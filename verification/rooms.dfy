/** `Room` (game.py:44-108) and its two concrete subclasses (game.py:111-123).
    Rooms refer to each other by id, so the exit graph may have cycles and
    self-loops; the ids are resolved by the map that holds the rooms. */
module Rooms {

  import opened Wrappers
  import Text
  import Items
  import opened Directions

  type RoomId = nat

  datatype Room = Room(
    name: string,
    about: string,
    items: seq<Items.Item>,
    exits: map<Direction, RoomId>,
    firstTime: bool)

  /** `add_exit` raises `ValueError("invalid direction: ...")`. */
  datatype RoomError = InvalidDirection(text: string)

  /** The name used when the class name is nothing but "Room". */
  const FallbackName: string := "Where am I? ...and what am I doing in this handbasket?"

  /** The room name: the class name with every "Room" removed, or the fallback when nothing is left. */
  function DeriveName(className: string): (r: string)
    ensures |r| > 0
    ensures |Text.RemoveAll(className, "Room")| == 0 ==> r == FallbackName
    ensures |Text.RemoveAll(className, "Room")| > 0 ==> r == Text.RemoveAll(className, "Room")
    ensures r == FallbackName <==>
      |Text.RemoveAll(className, "Room")| == 0 || Text.RemoveAll(className, "Room") == FallbackName
    ensures |className| > 0 && !Text.Occurs("Room", className) ==> r == className
  {
    var stripped := Text.RemoveAll(className, "Room");
    assert !Text.Occurs("Room", className) ==> stripped == className by {
      if !Text.Occurs("Room", className) {
        Text.RemoveAllWithoutPattern(className, "Room");
      }
    }
    if |stripped| > 0 then
      stripped
    else
      FallbackName
  }

  /** `Room.__init__` for a class called `className` whose constructor sets `about`. */
  function NewRoom(className: string, about: string): (r: Room)
    ensures r.items == [] && r.exits == map[] && r.firstTime
    ensures r.name == DeriveName(className) && r.about == about
  {
    Room(DeriveName(className), about, [], map[], true)
  }

  const OutsideAbout: string :=
    "You are standing outside the museum with only a rock, a grappling hook, and a gun."

  const HallwayAbout: string :=
    "You have landed in a hallway with beautiful art hanging on the walls. But you have your eyes on a bigger prize."

  /** `OutsideRoom()` */
  function Outside(): (r: Room)
    ensures r.name == "Outside" && r.about == OutsideAbout
    ensures r.items == [] && r.exits == map[] && r.firstTime
  {
    NoRoomWithoutR("Outside");
    SubclassName("OutsideRoom", "Outside");
    NewRoom("OutsideRoom", OutsideAbout)
  }

  /** `HallwayRoom()` */
  function Hallway(): (r: Room)
    ensures r.name == "Hallway" && r.about == HallwayAbout
    ensures r.items == [] && r.exits == map[] && r.firstTime
  {
    NoRoomWithoutR("Hallway");
    SubclassName("HallwayRoom", "Hallway");
    NewRoom("HallwayRoom", HallwayAbout)
  }

  /** A name without the letter 'R' cannot contain "Room". */
  lemma NoRoomWithoutR(name: string)
    requires forall i :: 0 <= i < |name| ==> name[i] != 'R'
    ensures !Text.Occurs("Room", name)
  {
    Text.AbsentFirstChar("Room", name);
  }

  /** The subclass names lose their "Room" suffix; the base class falls back. */
  lemma RoomNames()
    ensures Outside().name == "Outside"
    ensures Hallway().name == "Hallway"
    ensures NewRoom("Room", "").name == FallbackName
  {
    BaseName("Room");
  }

  /** The base class itself leaves nothing, so it takes the fallback name. */
  lemma BaseName(className: string)
    requires className == "Room"
    ensures DeriveName(className) == FallbackName
  {
    Text.RemoveAllSelf(className);
  }

  /** A class called `name` + "Room", where `name` does not contain "Room", is
      named `name`: the removal cannot match across the join, since 'R' occurs
      in "Room" only at its start. */
  lemma SubclassName(className: string, name: string)
    requires className == name + "Room" && |name| > 0
    requires !Text.Occurs("Room", name)
    ensures DeriveName(className) == name
  {
    Text.RemoveAllKeepsCleanPrefix(name, "Room", "Room");
    Text.RemoveAllSelf("Room");
    assert name + "" == name;
  }

  /** Every match is removed, not only the first: "RoomRoom" leaves nothing. */
  lemma RoomRoomName(className: string)
    requires className == "Room" + "Room"
    ensures DeriveName(className) == FallbackName
  {
    Text.RemoveAllDropsLeading("Room", "Room");
    Text.RemoveAllSelf("Room");
  }

  /** A capital 'R' elsewhere in the name does not stop the suffix from being removed. */
  lemma RedRoomName()
    ensures DeriveName("RedRoom") == "Red"
  {
    SubclassName("RedRoom", "Red");
  }

  /** `add_item`: append, keeping order and duplicates. */
  function AddItem(room: Room, item: Items.Item): (r: Room)
    ensures |r.items| == |room.items| + 1
    ensures r.items[..|room.items|] == room.items && r.items[|room.items|] == item
    ensures r.(items := room.items) == room
  {
    room.(items := room.items + [item])
  }

  /** `add_exit(exit, target)`: fails when `exit` is no alias of any direction,
      otherwise sets the exit of the direction it names. */
  function AddExit(room: Room, exit: string, target: RoomId): (r: Result<Room, RoomError>)
    ensures r.Failure? <==> forall d :: Text.Lower(exit) !in Aliases(d)
    ensures r.Failure? ==> r.error == InvalidDirection(exit)
    ensures r.Success? ==>
      exists d :: Text.Lower(exit) in Aliases(d) && r.value == room.(exits := room.exits[d := target])
  {
    var found := Resolve(exit);
    if found.None? then
      Failure(InvalidDirection(exit))
    else
      var d := found.value;
      assert Text.Lower(exit) in Aliases(d);
      Success(room.(exits := room.exits[d := target]))
  }

  /** Adding an exit by any alias of `d`, in any letter case, points `d` at the
      target, keeps every other exit, and adds at most one exit. */
  lemma AddExitByAlias(room: Room, d: Direction, exit: string, target: RoomId)
    requires Text.Lower(exit) in Aliases(d)
    ensures AddExit(room, exit, target) == Success(room.(exits := room.exits[d := target]))
    ensures var exits := room.exits[d := target];
      && d in exits && exits[d] == target
      && (forall e :: e != d ==> (e in exits <==> e in room.exits))
      && (forall e :: e != d && e in room.exits ==> exits[e] == room.exits[e])
      && |exits| == (if d in room.exits then |room.exits| else |room.exits| + 1)
  {
    ResolveAlias(d, exit);
    UpdateFacts(room.exits, d, target);
  }

  /** Setting one key points it at the value, keeps every other entry, and adds
      an entry only when the key is new. */
  lemma UpdateFacts(m: map<Direction, RoomId>, d: Direction, target: RoomId)
    ensures var u := m[d := target];
      && d in u && u[d] == target
      && (forall e :: e != d ==> (e in u <==> e in m))
      && (forall e :: e != d && e in m ==> u[e] == m[e])
      && |u| == (if d in m then |m| else |m| + 1)
  {
    if d !in m {
      assert m[d := target].Keys == m.Keys + {d};
    } else {
      assert m[d := target].Keys == m.Keys;
    }
  }

  /** Adding the same direction twice, by two of its aliases, leaves one exit
      pointing at the later target. */
  lemma AddExitTwice(room: Room, d: Direction, first: string, second: string, a: RoomId, b: RoomId)
    requires Text.Lower(first) in Aliases(d) && Text.Lower(second) in Aliases(d)
    ensures AddExit(room, first, a).Success?
    ensures AddExit(AddExit(room, first, a).value, second, b)
      == Success(room.(exits := room.exits[d := b]))
  {
    ResolveAlias(d, first);
    var once := room.(exits := room.exits[d := a]);
    assert AddExit(room, first, a) == Success(once);
    ResolveAlias(d, second);
    assert AddExit(once, second, b) == Success(once.(exits := once.exits[d := b]));
    UpdateTwice(room.exits, d, a, b);
  }

  lemma UpdateTwice(m: map<Direction, RoomId>, d: Direction, a: RoomId, b: RoomId)
    ensures m[d := a][d := b] == m[d := b]
  {
  }

  /** `possible_exits()`: the canonical names of the wired exits, as a set
      because dictionary key order is not part of the contract. */
  function PossibleExits(room: Room): (r: set<string>)
    ensures forall s :: s in r <==> exists d :: d in room.exits && Name(d) == s
    ensures |r| == |room.exits|
  {
    var r := set d | d in room.exits :: Name(d);
    NameImageSize(room.exits.Keys);
    r
  }

  /** Distinct directions have distinct names, so naming keeps the count. */
  lemma {:induction false} NameImageSize(ds: set<Direction>)
    ensures |set d | d in ds :: Name(d)| == |ds|
    decreases |ds|
  {
    if ds != {} {
      var x :| x in ds;
      var rest := ds - {x};
      NameImageSize(rest);
      var img := set d | d in ds :: Name(d);
      var imgRest := set d | d in rest :: Name(d);
      assert img == imgRest + {Name(x)};
      assert Name(x) !in imgRest by {
        forall d | d in rest ensures Name(d) != Name(x) {
          NameInjective(d, x);
        }
      }
    }
  }

  /** `move(direction)`: the room behind the exit whose canonical name is exactly
      `direction`; aliases and other spellings find nothing. */
  function Move(room: Room, direction: string): (r: Option<RoomId>)
    ensures r.Some? <==> direction in PossibleExits(room)
    ensures r.Some? ==> exists d :: d in room.exits && Name(d) == direction && r.value == room.exits[d]
  {
    match FromName(direction)
    case None => None
    case Some(d) => if d in room.exits then Some(room.exits[d]) else None
  }

  /** An exit added under any alias is reached by moving in its canonical name. */
  lemma MoveAfterAddExit(room: Room, d: Direction, exit: string, target: RoomId)
    requires Text.Lower(exit) in Aliases(d)
    ensures AddExit(room, exit, target).Success?
    ensures Move(AddExit(room, exit, target).value, Name(d)) == Some(target)
  {
    AddExitByAlias(room, d, exit, target);
    NameInjective(d, FromName(Name(d)).value);
  }

  /** `move` does no alias normalisation: an abbreviation such as "n" never
      leads anywhere, even when the exit it abbreviates exists. */
  lemma MoveIgnoresAliases(room: Room, direction: string)
    requires forall d :: Name(d) != direction
    ensures Move(room, direction) == None
  {
  }

  const ItemsHeader: string := "Items at this location:\n"

  /** The names of the items, in order: `'%s' % i` calls `Item.__str__`, which
      returns the item's name. */
  function ItemNames(items: seq<Items.Item>): (r: seq<string>)
    ensures |r| == |items|
    ensures forall i :: 0 <= i < |items| ==> r[i] == items[i].name
  {
    seq(|items|, i requires 0 <= i < |items| => items[i].name)
  }

  /** `show_items()`: empty for a room without items, otherwise a header and one
      line per item name, followed by a single space. */
  function ShowItems(items: seq<Items.Item>): (r: string)
    ensures r == "" <==> |items| == 0
    ensures |items| > 0 ==> |r| > |ItemsHeader| && r[..|ItemsHeader|] == ItemsHeader && r[|r| - 1] == ' '
  {
    if |items| == 0 then ""
    else ItemsHeader + Text.Join("\n", ItemNames(items)) + " "
  }

  /** Every item's name appears in the listing. */
  lemma ShowItemsListsEveryItem(items: seq<Items.Item>, i: int)
    requires 0 <= i < |items|
    ensures Text.Occurs(items[i].name, ShowItems(items))
  {
    Text.JoinContainsEach("\n", ItemNames(items), i);
    Text.OccursInside(items[i].name, ItemsHeader, Text.Join("\n", ItemNames(items)), " ");
  }

  /** Adding an item to a room that already lists items puts its name on a new
      last line, after every earlier one. */
  lemma ShowItemsAfterAddItem(room: Room, item: Items.Item)
    requires |room.items| > 0
    ensures var before := ShowItems(room.items);
      ShowItems(AddItem(room, item).items) == before[..|before| - 1] + "\n" + item.name + " "
  {
    var names := ItemNames(room.items);
    ItemNamesAppend(room.items, item);
    Text.JoinAppend("\n", names, item.name);
    ListingGrows(Text.Join("\n", names), item.name);
  }

  lemma ItemNamesAppend(items: seq<Items.Item>, item: Items.Item)
    ensures ItemNames(items + [item]) == ItemNames(items) + [item.name]
  {
  }

  /** Dropping the listing's closing space and appending a line keeps the header in front. */
  lemma ListingGrows(lines: string, name: string)
    ensures var before := ItemsHeader + lines + " ";
      before[..|before| - 1] + "\n" + name + " " == ItemsHeader + (lines + "\n" + name) + " "
  {
    var before := ItemsHeader + lines + " ";
    assert before[..|before| - 1] == ItemsHeader + lines;
  }

  /** Adding the first item makes the listing the header and that name. */
  lemma ShowItemsFirstItem(room: Room, item: Items.Item)
    requires |room.items| == 0
    ensures ShowItems(AddItem(room, item).items) == ItemsHeader + item.name + " "
  {
    assert ItemNames([item]) == [item.name];
  }

  /** The text of a render and the room after it. */
  datatype Described = Described(text: string, room: Room)

  /** `describe(verbose)`: the full description on the first render or when asked
      for, the name and items otherwise. Reading the full description flips the
      first-time latch. */
  function Describe(room: Room, verbose: bool): (r: Described)
    ensures r.room == room.(firstTime := false)
    ensures (room.firstTime || verbose) ==>
      r.text == room.name + "\n" + room.about + "\n\n" + ShowItems(room.items)
    ensures !(room.firstTime || verbose) ==>
      r.text == room.name + "\n" + ShowItems(room.items)
  {
    if room.firstTime || verbose then
      Described(room.name + "\n" + room.about + "\n\n" + ShowItems(room.items), room.(firstTime := false))
    else
      Described(room.name + "\n" + ShowItems(room.items), room)
  }

  /** Every render starts with the name and ends with the item listing; the
      full one shows the narrative. */
  lemma DescribeShape(room: Room, verbose: bool)
    ensures var t := Describe(room, verbose).text;
      && |t| > |room.name|
      && t[..|room.name| + 1] == room.name + "\n"
      && |t| >= |ShowItems(room.items)|
      && t[|t| - |ShowItems(room.items)|..] == ShowItems(room.items)
    ensures room.firstTime || verbose ==> Text.Occurs(room.about, Describe(room, verbose).text)
  {
    if room.firstTime || verbose {
      FullRenderShape(room.name, room.about, ShowItems(room.items));
    } else {
      ShortRenderShape(room.name, ShowItems(room.items));
    }
  }

  lemma FullRenderShape(name: string, about: string, listing: string)
    ensures var t := name + "\n" + about + "\n\n" + listing;
      && t[..|name| + 1] == name + "\n"
      && t[|t| - |listing|..] == listing
      && Text.Occurs(about, t)
  {
    var head := name + "\n";
    var t := head + about + "\n\n" + listing;
    assert t == head + (about + "\n\n") + listing;
    Text.Frame(head, about + "\n\n", listing);
    Text.OccursSelf(about);
    Text.OccursInside(about, head, about, "\n\n" + listing);
    assert t == head + about + ("\n\n" + listing);
  }

  lemma ShortRenderShape(name: string, listing: string)
    ensures var t := name + "\n" + listing;
      && t[..|name| + 1] == name + "\n"
      && t[|t| - |listing|..] == listing
  {
    Text.Frame(name + "\n", "", listing);
    assert name + "\n" + "" + listing == name + "\n" + listing;
  }

  /** After any render, a plain render omits the narrative; a verbose one brings it back. */
  lemma DescribeLatch(room: Room, first: bool)
    ensures var seen := Describe(room, first).room;
      && Describe(seen, false).text == room.name + "\n" + ShowItems(room.items)
      && Describe(seen, false).room == seen
      && Describe(seen, true).text == room.name + "\n" + room.about + "\n\n" + ShowItems(room.items)
  {
  }

  /** The operations a room supports, for reasoning about histories. */
  datatype RoomOp =
    | AddItemOp(item: Items.Item)
    | AddExitOp(exit: string, target: RoomId)
    | MoveOp(direction: string)
    | PossibleExitsOp
    | DescribeOp(verbose: bool)

  /** One operation; a failed `add_exit` raises before changing anything. */
  function Apply(room: Room, op: RoomOp): Room {
    match op
    case AddItemOp(item) => AddItem(room, item)
    case AddExitOp(exit, target) =>
      (match AddExit(room, exit, target)
       case Success(r) => r
       case Failure(_) => room)
    case MoveOp(_) => room
    case PossibleExitsOp => room
    case DescribeOp(verbose) => Describe(room, verbose).room
  }

  function Run(room: Room, ops: seq<RoomOp>): Room
    decreases |ops|
  {
    if |ops| == 0 then room else Run(Apply(room, ops[0]), ops[1..])
  }

  /** The first-time latch is set after a history exactly when it was set before
      and no render happened; once cleared it never comes back. Name and
      narrative never change. */
  lemma {:induction false} FirstTimeLatch(room: Room, ops: seq<RoomOp>)
    ensures Run(room, ops).firstTime <==> room.firstTime && forall i :: 0 <= i < |ops| ==> !ops[i].DescribeOp?
    ensures Run(room, ops).name == room.name && Run(room, ops).about == room.about
    decreases |ops|
  {
    if |ops| > 0 {
      var next := Apply(room, ops[0]);
      assert Run(room, ops) == Run(next, ops[1..]);
      ApplyKeepsName(room, ops[0]);
      FirstTimeLatch(next, ops[1..]);
      assert (forall i :: 0 <= i < |ops| ==> !ops[i].DescribeOp?) <==>
        !ops[0].DescribeOp? && (forall i :: 0 <= i < |ops[1..]| ==> !ops[1..][i].DescribeOp?) by {
        assert forall i :: 1 <= i < |ops| ==> ops[i] == ops[1..][i - 1];
      }
    }
  }

  /** Only a render clears the latch, and no operation renames a room or rewrites its narrative. */
  lemma ApplyKeepsName(room: Room, op: RoomOp)
    ensures Apply(room, op).firstTime <==> room.firstTime && !op.DescribeOp?
    ensures Apply(room, op).name == room.name && Apply(room, op).about == room.about
  {
  }
}
