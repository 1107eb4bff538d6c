/** `Item` and its speaking variant `Guard` (game.py:126-146). */
module Items {

  import opened Wrappers
  import Utils

  /** What an item says when addressed: a plain item stays silent, a guard says
      the first of the commands every guard is given. */
  datatype Voice = Silent | GuardVoice

  datatype Item = Item(name: string, desc: string, voice: Voice)

  /** The commands every guard is constructed with. */
  const GuardCommands: seq<string> := ["Stop"]

  /** The description an item gets when none is given. */
  function DefaultDesc(name: string): string {
    "It's just " + Utils.AOrAn(name) + "..."
  }

  /** `Item(name, desc=None)` */
  function NewItem(name: string, desc: Option<string>): (r: Item)
    ensures r.name == name
    ensures desc.Some? ==> r.desc == desc.value
    ensures desc.None? && Utils.StartsWithVowel(name) ==> r.desc == "It's just " + "an " + name + "..."
    ensures desc.None? && !Utils.StartsWithVowel(name) ==> r.desc == "It's just " + "a " + name + "..."
    ensures Say(r) == "..."
  {
    DefaultDescArticle(name);
    Item(name, if desc.Some? then desc.value else DefaultDesc(name), Silent)
  }

  /** The default description spells out the article `a_or_an` picks. */
  lemma DefaultDescArticle(name: string)
    ensures Utils.StartsWithVowel(name) ==> DefaultDesc(name) == "It's just " + "an " + name + "..."
    ensures !Utils.StartsWithVowel(name) ==> DefaultDesc(name) == "It's just " + "a " + name + "..."
  {
    if Utils.StartsWithVowel(name) {
      assert Utils.AOrAn(name) == "an " + name;
    } else {
      assert Utils.AOrAn(name) == "a " + name;
    }
  }

  /** `Guard(name, desc=None)`: an item that answers with its first command. */
  function NewGuard(name: string, desc: Option<string>): (r: Item)
    ensures r.name == name && r.desc == NewItem(name, desc).desc
    ensures r.voice.GuardVoice?
    ensures Say(r) == "Stop"
  {
    NewItem(name, desc).(voice := GuardVoice)
  }

  /** `say()` */
  function Say(item: Item): (r: string)
    ensures r == "..." <==> item.voice.Silent?
    ensures item.voice.GuardVoice? ==> r == GuardCommands[0]
  {
    match item.voice
    case Silent => "..."
    case GuardVoice => GuardCommands[0]
  }

  /** The default descriptions `test_item_default_desc` and
      `test_item_default_desc_leading_vowel` in test_game.py check. */
  lemma DefaultDescRock()
    ensures NewItem("rock", None).desc == "It's just a rock..."
  {
    assert !Utils.StartsWithVowel("rock") by { assert "rock"[0] == 'r'; }
  }

  lemma DefaultDescEgg()
    ensures NewItem("egg", None).desc == "It's just an egg..."
  {
    assert Utils.StartsWithVowel("egg") by { assert "egg"[0] == 'e'; }
  }

  lemma ExplicitDescExample()
    ensures NewItem("", Some("xyzzy")).desc == "xyzzy"
  {
  }
}
