/**
 * The two start-up menus of main (Main.cpp): whether to use a seed, and
 * whether to show the mouse exploring. Each repeats until the answer is 0 or 1.
 */
module Menus {
  import opened Wrappers
  import opened UserInput

  /** The seed that asks CustomMaze for a random maze. */
  const NO_SEED := -1

  /** Milliseconds between the tiles of the route playback. */
  const PRINT_ROUTE_SLEEP := 50

  datatype SeedSource = SeedFromUser | RandomSeed

  /** The settings main derives from the second menu. */
  datatype Display = Display(showExploration: bool, printRouteSleepAmount: int)

  /** The settings a completed dialogue hands to the rest of main. */
  datatype Config = Config(seed: int, display: Display)

  /** The first menu's switch: 0 asks for a seed, 1 takes none, anything else asks again. */
  function SeedMenu(choice: int): (r: Option<SeedSource>)
    ensures r.Some? <==> choice == 0 || choice == 1
    ensures r == Some(SeedFromUser) <==> choice == 0
  {
    match choice
    case 0 => Some(SeedFromUser)
    case 1 => Some(RandomSeed)
    case _ => None
  }

  /** The second menu's switch: 0 shows exploration, 1 hides it and the route delay, anything else asks again. */
  function ExplorationMenu(choice: int): (r: Option<Display>)
    ensures r.Some? <==> choice == 0 || choice == 1
    ensures r.Some? ==> r.value.showExploration == (choice == 0)
    ensures r.Some? ==> r.value.printRouteSleepAmount == if r.value.showExploration then PRINT_ROUTE_SLEEP else 0
  {
    match choice
    case 0 => Some(Display(true, PRINT_ROUTE_SLEEP))
    case 1 => Some(Display(false, 0))
    case _ => None
  }

  /** The seed the first menu's loop settles on, and where reading stopped. */
  function SeedDialogue(lines: seq<string>, from: nat): (r: Option<Read<int>>)
    requires from <= |lines|
    ensures r.Some? ==> from < r.value.next <= |lines|
    ensures r.Some? ==> r.value.value == NO_SEED || 0 <= r.value.value <= INT_MAX
    decreases |lines| - from
  {
    match NextInt(lines, from)
    case None => None
    case Some(choice) =>
      match SeedMenu(choice.value)
      case Some(SeedFromUser) => NextInt(lines, choice.next)
      case Some(RandomSeed) => Some(Read(NO_SEED, choice.next))
      case None => SeedDialogue(lines, choice.next)
  }

  /** The display settings the second menu's loop settles on, and where reading stopped. */
  function ExplorationDialogue(lines: seq<string>, from: nat): (r: Option<Read<Display>>)
    requires from <= |lines|
    ensures r.Some? ==> from < r.value.next <= |lines|
    ensures r.Some? ==> r.value.value == ExplorationMenu(0).value || r.value.value == ExplorationMenu(1).value
    decreases |lines| - from
  {
    match NextInt(lines, from)
    case None => None
    case Some(choice) =>
      match ExplorationMenu(choice.value)
      case Some(display) => Some(Read(display, choice.next))
      case None => ExplorationDialogue(lines, choice.next)
  }

  /** Both menus, one after the other. */
  function ConfigDialogue(lines: seq<string>): Option<Config>
  {
    match SeedDialogue(lines, 0)
    case None => None
    case Some(seed) =>
      match ExplorationDialogue(lines, seed.next)
      case None => None
      case Some(display) => Some(Config(seed.value, display.value))
  }

  /** The first menu's do-while loop. */
  method AskSeed(lines: seq<string>, from: nat) returns (answer: Option<Read<int>>)
    requires from <= |lines|
    ensures answer == SeedDialogue(lines, from)
  {
    var pos := from;
    while true
      invariant from <= pos <= |lines|
      invariant SeedDialogue(lines, pos) == SeedDialogue(lines, from)
      decreases |lines| - pos
    {
      var choice := GetPositiveIntFromUser(lines, pos);
      if choice.None? {
        return None;
      }
      match SeedMenu(choice.value.value) {
        case Some(SeedFromUser) =>
          answer := GetPositiveIntFromUser(lines, choice.value.next);
          return;
        case Some(RandomSeed) =>
          return Some(Read(NO_SEED, choice.value.next));
        case None =>
          pos := choice.value.next;
      }
    }
  }

  /** The second menu's do-while loop. */
  method AskExploration(lines: seq<string>, from: nat) returns (answer: Option<Read<Display>>)
    requires from <= |lines|
    ensures answer == ExplorationDialogue(lines, from)
  {
    var pos := from;
    while true
      invariant from <= pos <= |lines|
      invariant ExplorationDialogue(lines, pos) == ExplorationDialogue(lines, from)
      decreases |lines| - pos
    {
      var choice := GetPositiveIntFromUser(lines, pos);
      if choice.None? {
        return None;
      }
      var display := ExplorationMenu(choice.value.value);
      if display.Some? {
        return Some(Read(display.value, choice.value.next));
      }
      pos := choice.value.next;
    }
  }

  /** The configuration block at the top of main's restart loop. */
  method Configure(lines: seq<string>) returns (config: Option<Config>)
    ensures config == ConfigDialogue(lines)
    ensures config.Some? ==> config.value.seed == NO_SEED || config.value.seed >= 0
    ensures config.Some? ==> config.value.display.printRouteSleepAmount ==
                             if config.value.display.showExploration then PRINT_ROUTE_SLEEP else 0
  {
    var seed := AskSeed(lines, 0);
    if seed.None? {
      return None;
    }
    var display := AskExploration(lines, seed.value.next);
    if display.None? {
      return None;
    }
    config := Some(Config(seed.value.value, display.value.value));
  }

  /** Answering 1 to the first menu never reads a seed: the maze is random. */
  lemma NoSeedAfterOne(lines: seq<string>, from: nat)
    requires from < |lines| && ParseUserInt(lines[from]) == Some(1)
    ensures SeedDialogue(lines, from) == Some(Read(NO_SEED, from + 1))
  {
  }

  /** Answers other than 0 and 1 are skipped: the dialogue resumes at the next line. */
  lemma OtherChoicesAskAgain(lines: seq<string>, from: nat)
    requires from < |lines| && ParseUserInt(lines[from]).Some?
    requires ParseUserInt(lines[from]).value > 1
    ensures SeedDialogue(lines, from) == SeedDialogue(lines, from + 1)
    ensures ExplorationDialogue(lines, from) == ExplorationDialogue(lines, from + 1)
  {
  }

  /** Answering 0 to the first menu makes the seed the next accepted line. */
  lemma SeedAfterZero(lines: seq<string>, from: nat)
    requires from < |lines| && ParseUserInt(lines[from]) == Some(0)
    ensures SeedDialogue(lines, from) == NextInt(lines, from + 1)
  {
  }

  /** A line the prompt rejects is skipped by both menus. */
  lemma RejectedLineSkipped(lines: seq<string>, from: nat)
    requires from < |lines| && ParseUserInt(lines[from]).None?
    ensures SeedDialogue(lines, from) == SeedDialogue(lines, from + 1)
    ensures ExplorationDialogue(lines, from) == ExplorationDialogue(lines, from + 1)
  {
  }

  /** An accepted 0 or 1 settles the second menu on that answer's settings. */
  lemma ExplorationFirstAnswer(lines: seq<string>, from: nat, v: int)
    requires from < |lines| && ParseUserInt(lines[from]) == Some(v) && v <= 1
    ensures ExplorationDialogue(lines, from) == Some(Read(ExplorationMenu(v).value, from + 1))
  {
  }

  /** A line both menus take as an answer: an accepted 0 or 1. */
  predicate MenuAnswer(line: string) {
    ParseUserInt(line) == Some(0) || ParseUserInt(line) == Some(1)
  }

  /** The first accepted 0 or 1 at or after `from`, and the line after it. */
  function FirstMenuAnswer(lines: seq<string>, from: nat): (r: Option<Read<int>>)
    requires from <= |lines|
    ensures r.Some? ==> from < r.value.next <= |lines|
    ensures r.Some? ==> (r.value.value == 0 || r.value.value == 1) && ParseUserInt(lines[r.value.next - 1]) == Some(r.value.value)
    decreases |lines| - from
  {
    match NextInt(lines, from)
    case None => None
    case Some(choice) =>
      if choice.value == 0 || choice.value == 1 then Some(choice) else FirstMenuAnswer(lines, choice.next)
  }

  /** Every line before the first menu answer is passed over by both menus. */
  lemma {:induction false} NoAnswerBeforeFirst(lines: seq<string>, from: nat)
    requires from <= |lines|
    ensures var r := FirstMenuAnswer(lines, from);
      forall i :: from <= i < (if r.Some? then r.value.next - 1 else |lines|) ==> !MenuAnswer(lines[i])
    decreases |lines| - from
  {
    var r := FirstMenuAnswer(lines, from);
    var end := if r.Some? then r.value.next - 1 else |lines|;
    match NextInt(lines, from)
    case None =>
      forall i | from <= i < end
        ensures !MenuAnswer(lines[i])
      {
        assert ParseUserInt(lines[i]).None?;
      }
    case Some(choice) =>
      if choice.value != 0 && choice.value != 1 {
        NoAnswerBeforeFirst(lines, choice.next);
      }
      forall i | from <= i < end
        ensures !MenuAnswer(lines[i])
      {
        if i < choice.next - 1 {
          assert ParseUserInt(lines[i]).None?;
        } else if i == choice.next - 1 {
          assert ParseUserInt(lines[i]) == Some(choice.value);
        }
      }
  }

  /** The first menu's outcome is decided by its first accepted 0 or 1: NO_SEED after a 1, the next accepted line after a 0. */
  lemma {:induction false} SeedDecidedByFirstAnswer(lines: seq<string>, from: nat)
    requires from <= |lines|
    ensures SeedDialogue(lines, from) ==
      match FirstMenuAnswer(lines, from)
      case None => None
      case Some(answer) => if answer.value == 1 then Some(Read(NO_SEED, answer.next)) else NextInt(lines, answer.next)
    decreases |lines| - from
  {
    match NextInt(lines, from)
    case None =>
    case Some(choice) =>
      if choice.value != 0 && choice.value != 1 {
        SeedDecidedByFirstAnswer(lines, choice.next);
      }
  }

  /** The second menu's outcome is the setting of its first accepted 0 or 1. */
  lemma {:induction false} ExplorationDecidedByFirstAnswer(lines: seq<string>, from: nat)
    requires from <= |lines|
    ensures ExplorationDialogue(lines, from) ==
      match FirstMenuAnswer(lines, from)
      case None => None
      case Some(answer) => Some(Read(ExplorationMenu(answer.value).value, answer.next))
    decreases |lines| - from
  {
    match NextInt(lines, from)
    case None =>
    case Some(choice) =>
      if choice.value != 0 && choice.value != 1 {
        ExplorationDecidedByFirstAnswer(lines, choice.next);
      }
  }
}
