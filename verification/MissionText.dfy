/** The remaining mission as text: printed into an exactly sized buffer, and read back. */
module MissionText {
  import opened Commands
  import opened Text
  import opened Tokeniser
  import Executor

  function Remaining(x: Executor.State): seq<Command> {
    (if x.current.None? then [] else [x.current.value]) + x.queue
  }

  lemma NameFacts(c: Command)
    ensures |Name(c)| == NAME_LEN - 1
    ensures ' ' !in Name(c) && ',' !in Name(c) && NUL !in Name(c)
  {
  }

  /** Copies a string and its terminator; all of it has to fit. */
  method StrCpy(buf: array<char>, at: nat, s: string)
    requires at + |s| < buf.Length
    modifies buf
    ensures buf[at..at + |s|] == s && buf[at + |s|] == NUL
    ensures forall k | 0 <= k < buf.Length && !(at <= k <= at + |s|) :: buf[k] == old(buf[k])
  {
    for i := 0 to |s|
      invariant buf[at..at + i] == s[..i]
      invariant forall k | 0 <= k < buf.Length && !(at <= k < at + i) :: buf[k] == old(buf[k])
    {
      buf[at + i] := s[i];
      assert buf[at..at + i + 1] == s[..i + 1];
    }
    buf[at + |s|] := NUL;
    assert buf[at..at + |s|] == s;
  }

  /** Prints one name and the blank behind it into its own five characters. */
  method PutName(buf: array<char>, i: nat, name: string)
    requires NAME_LEN * (i + 1) <= buf.Length && |name| == NAME_LEN - 1
    modifies buf
    ensures buf[NAME_LEN * i..NAME_LEN * (i + 1)] == name + " "
    ensures forall k | 0 <= k < buf.Length && !(NAME_LEN * i <= k < NAME_LEN * (i + 1)) :: buf[k] == old(buf[k])
  {
    StrCpy(buf, NAME_LEN * i, name);
    buf[NAME_LEN * (i + 1) - 1] := ' ';
    assert buf[NAME_LEN * i..NAME_LEN * (i + 1) - 1] == name;
  }

  /** The names so far, each with its blank. */
  function Printed(names: seq<string>): string {
    if names == [] then "" else Printed(names[..|names| - 1]) + names[|names| - 1] + " "
  }

  lemma {:induction false} PrintedIsJoined(names: seq<string>)
    requires names != []
    ensures Printed(names) == Join(names, ' ') + " "
  {
    var front, last := names[..|names| - 1], names[|names| - 1];
    assert names == front + [last];
    if front != [] {
      PrintedIsJoined(front);
      JoinSnoc(front, last, ' ');
    }
  }

  lemma PrintedSnoc(names: seq<string>, i: nat)
    requires i < |names|
    ensures Printed(names[..i + 1]) == Printed(names[..i]) + names[i] + " "
  {
    assert names[..i + 1][..i] == names[..i];
  }

  /** Prints the name of command i behind those before it. */
  method PutNext(buf: array<char>, i: nat, command: Command, ghost names: seq<string>)
    requires NAME_LEN * (i + 1) <= buf.Length && i < |names| && names[i] == Name(command)
    requires buf[..NAME_LEN * i] == Printed(names[..i])
    modifies buf
    ensures buf[..NAME_LEN * (i + 1)] == Printed(names[..i + 1])
  {
    ghost var before := buf[..NAME_LEN * i];
    NameFacts(command);
    PutName(buf, i, Name(command));
    assert buf[..NAME_LEN * i] == before;
    assert buf[..NAME_LEN * (i + 1)] == buf[..NAME_LEN * i] + buf[NAME_LEN * i..NAME_LEN * (i + 1)];
    PrintedSnoc(names, i);
  }

  /** Prints the current command, if any, and then the queue. */
  method PrintNames(buf: array<char>, o: Executor.Obj, count: nat)
    requires count == |Remaining(o.View())| && buf.Length == NAME_LEN * count
    modifies buf
    ensures buf[..] == Printed(Names(Remaining(o.View())))
  {
    hide Printed;
    PrintedOfNone();
    ghost var names := Names(Remaining(o.View()));
    var i, k := 0, 0;
    if o.current.Some? {
      PutNext(buf, 0, o.current.value, names);
      i := 1;
    }
    while i < count
      invariant i <= count && i == k + if o.current.Some? then 1 else 0
      invariant buf[..NAME_LEN * i] == Printed(names[..i])
    {
      PutNext(buf, i, o.queue[k], names);
      i, k := i + 1, k + 1;
    }
    assert names[..count] == names && buf[..NAME_LEN * count] == buf[..];
  }

  lemma PrintedOfNone()
    ensures forall names: seq<string> :: Printed(names[..0]) == ""
  {
  }

  /** The text of the remaining mission, or null if nothing remains. Every character written lies inside
      the buffer of count * NAME_LEN characters, and the text with its terminator fills it exactly. */
  method ObjRemaining(o: Executor.Obj) returns (remaining: array?<char>)
    ensures remaining == null <==> Remaining(o.View()) == []
    ensures remaining != null ==>
      && remaining.Length == NAME_LEN * |Remaining(o.View())|
      && remaining[..] == Join(Names(Remaining(o.View())), ' ') + [NUL]
  {
    hide Printed;
    hide Join;
    ghost var names := Names(Remaining(o.View()));
    var count := 0;
    if o.current.Some? {
      count := count + 1;
    }
    for k := 0 to |o.queue|
      invariant count == k + if o.current.Some? then 1 else 0
    {
      count := count + 1;
    }
    if count == 0 {
      return null;
    }
    var buf := new char[count * NAME_LEN];
    PrintNames(buf, o, count);
    PrintedIsJoined(names);
    ghost var text := Join(names, ' ');
    assert buf[..] == text + " ";
    buf[NAME_LEN * count - 1] := NUL;
    assert buf[..] == text + [NUL];
    return buf;
  }

  /** Splitting the text at its blanks gives the names of the commands left, in order, and those names
      rebuild the same queue. */
  lemma RemainingRoundTrip(commands: seq<Command>)
    requires commands != []
    ensures Split(Join(Names(commands), ' '), ' ') == Names(commands)
    ensures Executor.Queue(Split(Join(Names(commands), ' '), ' ')) == commands
  {
    forall i | 0 <= i < |commands|
      ensures ' ' !in Names(commands)[i]
    {
      NameFacts(commands[i]);
    }
    SplitJoin(Names(commands), ' ');
    Executor.NamesQueue(commands);
  }
}
