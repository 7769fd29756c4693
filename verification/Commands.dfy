/** The mission commands and the names that stand for them on the wire. */
module Commands {

  datatype Command = Ignore | Stop | Park | Enter | Continue | Exit

  // Four letters and the terminating NUL.
  const NAME_LEN: nat := 5

  function Name(c: Command): string {
    match c
    case Ignore => "ignr"
    case Stop => "stop"
    case Park => "park"
    case Enter => "entr"
    case Continue => "cont"
    case Exit => "exit"
  }

  // The command table that mission names are looked up in, in its order.
  const TABLE: seq<Command> := [Ignore, Stop, Park, Enter, Continue, Exit]

  function Names(commands: seq<Command>): (names: seq<string>)
    ensures |names| == |commands|
    ensures forall i | 0 <= i < |names| :: names[i] == Name(commands[i])
  {
    seq(|commands|, i requires 0 <= i < |commands| => Name(commands[i]))
  }

  /** Looks a name up in the table from position j on. */
  function FindFrom(name: string, j: nat): (found: nat)
    requires j <= |TABLE|
    ensures j <= found <= |TABLE|
    ensures found < |TABLE| ==> Name(TABLE[found]) == name
    ensures forall k | j <= k < found :: Name(TABLE[k]) != name
    decreases |TABLE| - j
  {
    if j == |TABLE| || Name(TABLE[j]) == name then j else FindFrom(name, j + 1)
  }

  /** The words that planner and car have agreed on. */
  lemma NamesAreAgreed()
    ensures Name(Ignore) == "ignr" && Name(Stop) == "stop" && Name(Park) == "park"
    ensures Name(Enter) == "entr" && Name(Continue) == "cont" && Name(Exit) == "exit"
  {
  }

  /** Every command is found under its own name, and under no other. */
  lemma NameIdentifies(c: Command)
    ensures FindFrom(Name(c), 0) < |TABLE| && TABLE[FindFrom(Name(c), 0)] == c
  {
    var k := match c case Ignore => 0 case Stop => 1 case Park => 2 case Enter => 3 case Continue => 4 case Exit => 5;
    var found := FindFrom(Name(c), 0);
    assert TABLE[k] == c;
    assert found <= k;
    assert Name(TABLE[found])[0] == Name(c)[0] && Name(TABLE[found])[1] == Name(c)[1];
  }
}
