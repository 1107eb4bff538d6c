/** The direction registry of game.py: twelve canonical directions, each with
    its list of lower-case aliases (game.py:56-69). */
module Directions {

  import opened Wrappers
  import Text

  datatype Direction =
    | North | Northeast | Northwest
    | South | Southeast | Southwest
    | East | West | Up | Down | In | Out

  /** The canonical name: the key of the direction in the alias table and in a room's exits. */
  function Name(d: Direction): string {
    match d
    case North => "north"
    case Northeast => "northeast"
    case Northwest => "northwest"
    case South => "south"
    case Southeast => "southeast"
    case Southwest => "southwest"
    case East => "east"
    case West => "west"
    case Up => "up"
    case Down => "down"
    case In => "in"
    case Out => "out"
  }

  /** The aliases listed for each direction. */
  function Aliases(d: Direction): (r: seq<string>)
    ensures 0 < |r| <= 2 && r[0] == Name(d)
  {
    match d
    case North => ["north", "n"]
    case Northeast => ["northeast", "ne"]
    case Northwest => ["northwest", "nw"]
    case South => ["south", "s"]
    case Southeast => ["southeast", "se"]
    case Southwest => ["southwest", "sw"]
    case East => ["east", "e"]
    case West => ["west", "w"]
    case Up => ["up", "u"]
    case Down => ["down", "d"]
    case In => ["in"]
    case Out => ["out"]
  }

  /** Every direction, in the order the table is written. */
  const AllDirections: seq<Direction> :=
    [North, Northeast, Northwest, South, Southeast, Southwest, East, West, Up, Down, In, Out]

  lemma AllDirectionsComplete(d: Direction)
    ensures d in AllDirections
  {
  }

  /** The table read backwards: the direction each alias belongs to. */
  function AliasOwner(a: string): Option<Direction> {
    match a
    case "north" | "n" => Some(North)
    case "northeast" | "ne" => Some(Northeast)
    case "northwest" | "nw" => Some(Northwest)
    case "south" | "s" => Some(South)
    case "southeast" | "se" => Some(Southeast)
    case "southwest" | "sw" => Some(Southwest)
    case "east" | "e" => Some(East)
    case "west" | "w" => Some(West)
    case "up" | "u" => Some(Up)
    case "down" | "d" => Some(Down)
    case "in" => Some(In)
    case "out" => Some(Out)
    case _ => None
  }

  /** The backward reading agrees with the table: a string is an alias of `d`
      exactly when it belongs to `d`. */
  lemma AliasOwnerInvertsTable(d: Direction, a: string)
    ensures a in Aliases(d) <==> AliasOwner(a) == Some(d)
  {
    match d
    case North =>
    case Northeast =>
    case Northwest =>
    case South =>
    case Southeast =>
    case Southwest =>
    case East =>
    case West =>
    case Up =>
    case Down =>
    case In =>
    case Out =>
  }

  /** The table is well formed: each direction is its own alias, and no alias
      belongs to two directions. */
  lemma AliasTableWellFormed(d: Direction, e: Direction, a: string)
    ensures Name(d) in Aliases(d)
    ensures a in Aliases(d) && a in Aliases(e) ==> d == e
  {
    AliasOwnerInvertsTable(d, a);
    AliasOwnerInvertsTable(e, a);
  }

  /** Canonical names are distinct. */
  lemma NameInjective(d: Direction, e: Direction)
    ensures Name(d) == Name(e) ==> d == e
  {
  }

  /** Every alias is already lower case, so `exit.lower() in aliases` accepts
      each alias in any letter case. */
  lemma AliasesAreLowerCase(d: Direction, a: string)
    requires a in Aliases(d)
    ensures Text.IsLowerCase(a)
  {
  }

  /** The first direction of `order` that lists `key` among its aliases: the loop
      over `valid_directions.iteritems()` in `add_exit` (game.py:84-87), for one
      iteration order of the dictionary. */
  function FirstMatch(order: seq<Direction>, key: string): (r: Option<Direction>)
    ensures r.Some? ==> r.value in order && key in Aliases(r.value)
    ensures r.None? ==> forall d :: d in order ==> key !in Aliases(d)
    decreases |order|
  {
    if |order| == 0 then None
    else if key in Aliases(order[0]) then Some(order[0])
    else FirstMatch(order[1..], key)
  }

  /** The search finds the same direction whatever order the dictionary is
      iterated in, because no alias belongs to two directions. */
  lemma ResolveOrderIndependent(order: seq<Direction>, key: string)
    requires forall d: Direction :: d in order
    ensures FirstMatch(order, key) == FirstMatch(AllDirections, key)
  {
    var r1 := FirstMatch(order, key);
    var r2 := FirstMatch(AllDirections, key);
    if r1.Some? && r2.Some? {
      AliasTableWellFormed(r1.value, r2.value, key);
    } else if r1.Some? {
      AllDirectionsComplete(r1.value);
    }
  }

  /** Case-insensitive alias normalisation: the canonical direction that `text`,
      lower-cased, is an alias of, if any. */
  function Resolve(text: string): (r: Option<Direction>)
    ensures r.Some? <==> exists d :: Text.Lower(text) in Aliases(d)
    ensures r.Some? ==> Text.Lower(text) in Aliases(r.value)
  {
    var r := FirstMatch(AllDirections, Text.Lower(text));
    if r.None? then
      assert forall d :: Text.Lower(text) !in Aliases(d) by {
        forall d ensures Text.Lower(text) !in Aliases(d) {
          AllDirectionsComplete(d);
        }
      }
      r
    else r
  }

  /** Every alias of `d`, typed in any letter case, resolves to `d`. */
  lemma ResolveAlias(d: Direction, text: string)
    requires Text.Lower(text) in Aliases(d)
    ensures Resolve(text) == Some(d)
  {
    AliasTableWellFormed(d, Resolve(text).value, Text.Lower(text));
  }

  /** Text whose lower-case form is no alias does not resolve. */
  lemma ResolveUnknown(text: string)
    requires forall d :: Text.Lower(text) !in Aliases(d)
    ensures Resolve(text) == None
  {
  }

  /** The exact canonical direction named `s`, with no alias or case handling:
      how a dictionary keyed by canonical names answers `get(s)`. */
  function FromName(s: string): (r: Option<Direction>)
    ensures r.Some? ==> Name(r.value) == s
    ensures r.None? ==> forall d :: Name(d) != s
  {
    match s
    case "north" => Some(North)
    case "northeast" => Some(Northeast)
    case "northwest" => Some(Northwest)
    case "south" => Some(South)
    case "southeast" => Some(Southeast)
    case "southwest" => Some(Southwest)
    case "east" => Some(East)
    case "west" => Some(West)
    case "up" => Some(Up)
    case "down" => Some(Down)
    case "in" => Some(In)
    case "out" => Some(Out)
    case _ => None
  }

  /** Mixed-case abbreviations resolve like the lower-case ones. */
  lemma ResolveMixedCase()
    ensures Resolve("NE") == Some(Northeast)
    ensures Resolve("Ne") == Some(Northeast)
  {
    assert Text.Lower("NE") == "ne";
    assert Text.Lower("Ne") == "ne";
    ResolveAlias(Northeast, "NE");
    ResolveAlias(Northeast, "Ne");
  }

  lemma ResolveInvalid()
    ensures Resolve("-invalid-") == None
  {
    var t := "-invalid-";
    assert Text.IsLowerCase(t);
    Text.LowerOfLowerCase(t);
    assert forall d :: t !in Aliases(d) by {
      forall d ensures t !in Aliases(d) {
        assert t[0] == '-';
      }
    }
    ResolveUnknown(t);
  }
}
