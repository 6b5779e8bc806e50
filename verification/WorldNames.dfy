/** How region and item names say which world they belong to. */
module WorldNames {
  import opened Wrappers

  predicate IsDigit(c: char) {
    '0' <= c <= '9'
  }

  function DigitValue(c: char): nat
    requires IsDigit(c)
  {
    c as nat - '0' as nat
  }

  function DigitChar(n: nat): (c: char)
    requires n < 10
    ensures IsDigit(c) && DigitValue(c) == n
  {
    ('0' as nat + n) as char
  }

  predicate StartsWith(s: string, prefix: string) {
    |prefix| <= |s| && s[..|prefix|] == prefix
  }

  predicate EndsWith(s: string, suffix: string) {
    |suffix| <= |s| && s[|s| - |suffix|..] == suffix
  }

  /** `world_of_region`: the n of a `"W<n> ..."` name. */
  function WorldOf(name: string): Option<nat> {
    if |name| >= 3 && name[0] == 'W' && IsDigit(name[1]) && name[2] == ' '
    then Some(DigitValue(name[1])) else None
  }

  /** `world_start_num`: the n of a `W<n> Start` region. */
  function StartNum(name: string): (r: Option<nat>)
    ensures r.Some? ==> r == WorldOf(name)
  {
    if |name| == 8 && name[0] == 'W' && IsDigit(name[1]) && name[2..] == " Start"
    then assert name[2] == name[2..][0]; Some(DigitValue(name[1])) else None
  }

  predicate IsHub(name: string) {
    StartsWith(name, "PI ") || name in {"Pre-W4 Special", "Special End", "Post-Badge"}
  }

  const BOWSER_REGION := "World Bowser"

  function Prefixed(n: nat, rest: string): string
    requires n < 10
  {
    "W" + [DigitChar(n)] + rest
  }

  function StartName(n: nat): (s: string)
    requires n < 10
    ensures StartNum(s) == Some(n) && WorldOf(s) == Some(n)
  {
    var s := Prefixed(n, " Start");
    assert s[2..] == " Start";
    s
  }

  const CASTLE_UNLOCK_ITEM := "Bowser's Castle Unlock"

  function UnlockItem(n: nat): string
    requires n < 10
  {
    Prefixed(n, " Unlock")
  }

  function RoyalSeed(n: nat): string
    requires n < 10
  {
    Prefixed(n, " Royal Seed")
  }

  /** Names as they are in the data. */
  lemma NamesRead()
    ensures StartName(3) == "W3 Start" && UnlockItem(2) == "W2 Unlock" && RoyalSeed(6) == "W6 Royal Seed"
    ensures StartNum("W5 Start") == Some(5) && StartNum("W5 Start ").None? && StartNum("World Bowser").None?
    ensures WorldOf("W4 Start") == Some(4) && WorldOf("W1 ") == Some(1)
    ensures WorldOf("W1").None? && WorldOf("World Bowser").None? && WorldOf("W12 X").None?
    ensures IsHub("PI 5 Seeds") && IsHub("Pre-W4 Special") && IsHub("Special End") && IsHub("Post-Badge")
    ensures !IsHub("World Bowser") && !IsHub("W1 Start") && !IsHub("Manual") && !IsHub("Pipe-Rock")
  {
    assert "PI 5 Seeds"[..3] == "PI " && "World Bowser"[..3] == "Wor" && "W1 Start"[..3] == "W1 ";
    assert "Manual"[..3] == "Man" && "Pipe-Rock"[..3] == "Pip";
    assert "W5 Start"[2..] == " Start";
    assert "W3" + " Start" == "W3 Start";
  }

  /** The seeds an open world grants or leaves out, so that nothing is gated on them. */
  const FREE_SEEDS: set<string> := {"Petal Isles Wonder Seed", "Special World Wonder Seed"}

  lemma NotFreeSeeds(name: string)
    requires name != "" && (name[0] == 'W' || name[0] == 'B')
    ensures name !in FREE_SEEDS
  {
    assert "Petal Isles Wonder Seed"[0] == 'P' && "Special World Wonder Seed"[0] == 'S';
  }

  /** The number in a name determines it. */
  lemma StartNameUnique(name: string)
    requires StartNum(name).Some?
    ensures StartNum(name).value < 10 && name == StartName(StartNum(name).value)
  {
    var n := StartNum(name).value;
    assert name[1] == DigitChar(n);
    assert name == name[..2] + name[2..];
  }

  /** The kinds a region can have are exclusive. */
  lemma KindsExclusive(name: string)
    ensures WorldOf(name).Some? ==> !IsHub(name) && name != BOWSER_REGION && name != "Menu" && name != "Manual"
    ensures !IsHub(BOWSER_REGION) && !IsHub("Manual") && !IsHub("Menu")
  {
    assert |name| >= 3 ==> name[..3][0] == name[0];
    assert BOWSER_REGION[..3][0] == 'W' && "Manual"[..3][0] == 'M' && "Menu"[..3][0] == 'M';
  }
}
