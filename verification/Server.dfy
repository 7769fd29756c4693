/** The server's command parser and reply framing, and the client that talks to it. */
module Server {
  import opened Text
  import opened Tokeniser
  import opened Wrappers

  const CMD_DELIM: char := ':'
  const ARG_DELIM: char := ','
  const RSP_SUCCESS_PRE := "success:"
  const RSP_FAILURE_PRE := "failure:"
  const RSP_INVALID_ARG := "invalid_arg"
  const RSP_INVALID_CMD := "invalid_cmd"

  /** What a command's action reports: whether it succeeded, and its response, if any. */
  datatype Outcome = Outcome(success: bool, resp: Option<string>)

  datatype SrvCmd = SrvCmd(name: string, minArgs: nat, action: seq<string> -> Outcome)

  /** The position of the first command of that name. */
  function Find(cmds: seq<SrvCmd>, name: string): (i: nat)
    ensures i <= |cmds| && (i < |cmds| ==> cmds[i].name == name)
    ensures forall j | 0 <= j < i :: cmds[j].name != name
  {
    if cmds == [] || cmds[0].name == name then 0 else 1 + Find(cmds[1..], name)
  }

  /** The outcome of parsing a request. A request without a command name makes the code compare
      a null pointer with the first name of the table, if there is one. */
  datatype Request<A> = NullName | InvalidCmd | InvalidArg(cmd: nat) | Call(cmd: nat, args: seq<A>)

  function Parse(cmds: seq<SrvCmd>, msg: string): (request: Request<string>)
    ensures request.Call? ==> request.cmd < |cmds|
  {
    match NextToken(msg, CMD_DELIM)
    case None => if cmds == [] then InvalidCmd else NullName
    case Some((name, rest)) =>
      var i, args := Find(cmds, name), Tokens(rest, ARG_DELIM);
      if i == |cmds| then InvalidCmd
      else if |args| < cmds[i].minArgs then InvalidArg(i)
      else Call(i, [name] + args)
  }

  /** The arguments are where the pointers say, each ended by a NUL, in front of `limit`. */
  ghost predicate AllStrs(buf: seq<char>, ptrs: seq<nat>, strs: seq<string>, limit: nat) {
    && |ptrs| == |strs|
    && forall i | 0 <= i < |ptrs| :: IsStr(buf, ptrs[i], strs[i]) && ptrs[i] + |strs[i]| <= limit
  }

  ghost predicate Agrees(buf: seq<char>, request: Request<nat>, spec: Request<string>) {
    match request
    case NullName => spec.NullName?
    case InvalidCmd => spec.InvalidCmd?
    case InvalidArg(i) => spec == InvalidArg(i)
    case Call(i, ptrs) => spec.Call? && spec.cmd == i && AllStrs(buf, ptrs, spec.args, |buf|)
  }

  lemma StrStays(buf: seq<char>, buf': seq<char>, p: nat, t: string, cut: nat)
    requires IsStr(buf, p, t) && |buf'| == |buf| && p + |t| < cut
    requires forall k | 0 <= k < |buf| && k != cut :: buf'[k] == buf[k]
    ensures IsStr(buf', p, t)
  {
    assert buf'[p..p + |t|] == buf[p..p + |t|];
  }

  lemma StrsStay(buf: seq<char>, buf': seq<char>, ptrs: seq<nat>, strs: seq<string>, limit: nat, cut: nat)
    requires AllStrs(buf, ptrs, strs, limit) && |buf'| == |buf| && limit < cut
    requires forall k | 0 <= k < |buf| && k != cut :: buf'[k] == buf[k]
    ensures AllStrs(buf', ptrs, strs, limit)
  {
    forall i | 0 <= i < |ptrs|
      ensures IsStr(buf', ptrs[i], strs[i])
    {
      StrStays(buf, buf', ptrs[i], strs[i], cut);
    }
  }

  /** Takes one more argument off the message. */
  method NextArg(buf: array<char>, save: nat, ptrs: seq<nat>, ghost strs: seq<string>, ghost n: nat)
    returns (tok: Option<nat>, save': nat, ghost t: string)
    requires save <= n < buf.Length && IsStr(buf[..], save, buf[save..n]) && AllStrs(buf[..], ptrs, strs, save)
    modifies buf
    ensures save <= save' <= n && IsStr(buf[..], save', buf[save'..n])
    ensures tok == None ==>
      AllStrs(buf[..], ptrs, strs, save') && Tokens(old(buf[save..n]), ARG_DELIM) == []
    ensures tok.Some? ==>
      && save < save'
      && AllStrs(buf[..], ptrs + [tok.value], strs + [t], save')
      && Tokens(old(buf[save..n]), ARG_DELIM) == [t] + Tokens(buf[save'..n], ARG_DELIM)
  {
    ghost var was := buf[..];
    ghost var next := NextToken(buf[save..n], ARG_DELIM);
    tok, save' := StrtokR(buf, save, ARG_DELIM, n);
    if tok.Some? {
      t := next.value.0;
      StrsStay(was, buf[..], ptrs, strs, save, tok.value + |t|);
    } else {
      t := "";
    }
  }

  /** Collects all arguments; the first of them has been taken off already. */
  method CollectArgs(buf: array<char>, first: Option<nat>, save: nat, start: seq<nat>,
                     ghost t: string, ghost strs: seq<string>, ghost n: nat)
    returns (args: seq<nat>, ghost all: seq<string>)
    requires save <= n < buf.Length && IsStr(buf[..], save, buf[save..n])
    requires AllStrs(buf[..], if first.Some? then start + [first.value] else start,
                     if first.Some? then strs + [t] else strs, save)
    modifies buf
    ensures AllStrs(buf[..], args, all, buf.Length)
    ensures all == strs +
      if first.Some? then [t] + Tokens(old(buf[save..n]), ARG_DELIM) else []
  {
    hide IsStr;
    hide Tokens;
    args, all := start, strs;
    var argStr, at, s := first, save, t;
    while argStr.Some?
      invariant at <= n && IsStr(buf[..], at, buf[at..n])
      invariant AllStrs(buf[..], if argStr.Some? then args + [argStr.value] else args,
                        if argStr.Some? then all + [s] else all, at)
      invariant all + (if argStr.Some? then [s] + Tokens(buf[at..n], ARG_DELIM) else []) ==
        strs + (if first.Some? then [t] + Tokens(old(buf[save..n]), ARG_DELIM) else [])
      decreases n - at, argStr.Some?
    {
      args := args + [argStr.value];
      ghost var left := Tokens(buf[at..n], ARG_DELIM);
      assert all + ([s] + left) == (all + [s]) + left;
      all := all + [s];
      argStr, at, s := NextArg(buf, at, args, all, n);
    }
  }

  /** Parses a request in place: the message is cut into strings, and the arguments point into it. */
  method ParseCmd(cmds: seq<SrvCmd>, msg: array<char>, ghost n: nat) returns (request: Request<nat>)
    requires n < msg.Length && IsStr(msg[..], 0, msg[..n])
    modifies msg
    ensures Agrees(msg[..], request, Parse(cmds, old(msg[..n])))
  {
    hide IsStr;
    hide NextToken;
    hide Tokens;
    hide Find;
    assert msg[0..n] == msg[..n];
    ghost var next := NextToken(msg[..n], CMD_DELIM);
    var cmdStr, save := StrtokR(msg, 0, CMD_DELIM, n);
    if cmdStr == None {
      return if cmds == [] then InvalidCmd else NullName;
    }
    ghost var name, rest := next.value.0, msg[save..n];
    var cmd := Lookup(cmds, msg, cmdStr.value, name);
    var argStr, save', t := NextArg(msg, save, [cmdStr.value], [name], n);
    if cmd == |cmds| {
      return InvalidCmd;
    }
    var args, all := CollectArgs(msg, argStr, save', [cmdStr.value], t, [name], n);
    assert all == [name] + Tokens(rest, ARG_DELIM);
    if |args| - 1 < cmds[cmd].minArgs {
      return InvalidArg(cmd);
    }
    return Call(cmd, args);
  }

  /** Compares the command name with every entry of the table. */
  method Lookup(cmds: seq<SrvCmd>, buf: array<char>, p: nat, ghost name: string) returns (i: nat)
    requires IsStr(buf[..], p, name)
    ensures i == Find(cmds, name)
  {
    var s := ReadStr(buf, p, name);
    i := 0;
    while i < |cmds|
      invariant i <= |cmds| && Find(cmds, name) == i + Find(cmds[i..], name)
    {
      if cmds[i].name == s {
        return;
      }
      i := i + 1;
    }
  }

  /** The string at a position of the buffer, up to its NUL. */
  method ReadStr(buf: array<char>, p: nat, ghost t: string) returns (s: string)
    requires IsStr(buf[..], p, t)
    ensures s == t
  {
    s := "";
    assert forall k | 0 <= k < |t| :: buf[p + k] == t[k] && t[k] != NUL;
    var e := p;
    while buf[e] != NUL
      invariant p <= e <= p + |t| && s == t[..e - p]
      decreases p + |t| - e
    {
      s := s + [buf[e]];
      e := e + 1;
    }
  }

  // ---------------------------------------------------------------------------
  // Replies
  // ---------------------------------------------------------------------------

  /** What a request leads to: success or not, and a text; nothing if there is no command name. */
  function Answer(cmds: seq<SrvCmd>, msg: string): Option<(bool, string)> {
    match Parse(cmds, msg)
    case NullName => None
    case InvalidCmd => Some((false, RSP_INVALID_CMD))
    case InvalidArg(_) => Some((false, RSP_INVALID_ARG))
    case Call(i, args) =>
      var outcome := cmds[i].action(args);
      Some((outcome.success, if outcome.resp.Some? then outcome.resp.value else ""))
  }

  function Framed(success: bool, text: string): string {
    (if success then RSP_SUCCESS_PRE else RSP_FAILURE_PRE) + text
  }

  method ReadAll(buf: array<char>, ptrs: seq<nat>, ghost strs: seq<string>) returns (args: seq<string>)
    requires AllStrs(buf[..], ptrs, strs, buf.Length)
    ensures args == strs
  {
    args := [];
    for i := 0 to |ptrs|
      invariant args == strs[..i]
    {
      var s := ReadStr(buf, ptrs[i], strs[i]);
      args := args + [s];
    }
  }

  /** Parses and executes a request and frames the reply. */
  method ExecuteCmd(cmds: seq<SrvCmd>, msg: array<char>, ghost n: nat) returns (rsp: Option<string>)
    requires n < msg.Length && IsStr(msg[..], 0, msg[..n])
    modifies msg
    ensures rsp == None <==> cmds != [] && forall i | 0 <= i < n :: old(msg[i]) == CMD_DELIM
    ensures var answer := Answer(cmds, old(msg[..n]));
      rsp == if answer.None? then None else Some(Framed(answer.value.0, answer.value.1))
  {
    ghost var spec := Parse(cmds, msg[..n]);
    NullNameExactly(cmds, msg[..n]);
    assert forall i | 0 <= i < n :: msg[i] == msg[..n][i];
    var request := ParseCmd(cmds, msg, n);
    match request {
      case NullName => return None;
      case InvalidCmd => return Some(RSP_FAILURE_PRE + RSP_INVALID_CMD);
      case InvalidArg(_) => return Some(RSP_FAILURE_PRE + RSP_INVALID_ARG);
      case Call(i, ptrs) =>
        var args := ReadAll(msg, ptrs, spec.args);
        var outcome := cmds[i].action(args);
        var prefix := if outcome.success then RSP_SUCCESS_PRE else RSP_FAILURE_PRE;
        match outcome.resp {
          case Some(resp) => return Some(prefix + resp);
          case None =>
            assert prefix + "" == prefix;
            return Some(prefix);
        }
    }
  }

  // ---------------------------------------------------------------------------
  // The client
  // ---------------------------------------------------------------------------

  function CreateMsg(cmd: string, args: seq<string>): string {
    cmd + [CMD_DELIM] + Join(args, ARG_DELIM)
  }

  /** The client's reading of a reply: success flag and response, or nothing if it has no separator. */
  function ReadReply(msg: string): Option<(bool, string)> {
    var i := Span(msg, CMD_DELIM);
    if msg == "" || i == |msg| then None else Some((msg[..i] == "success", msg[i + 1..]))
  }

  /** Exactly the requests of nothing but colons, the empty one included, have no command name. */
  lemma NullNameExactly(cmds: seq<SrvCmd>, msg: string)
    ensures Parse(cmds, msg).NullName? <==> cmds != [] && forall i | 0 <= i < |msg| :: msg[i] == CMD_DELIM
    ensures Answer(cmds, msg).None? <==> cmds != [] && forall i | 0 <= i < |msg| :: msg[i] == CMD_DELIM
  {
    if forall i | 0 <= i < |msg| :: msg[i] == CMD_DELIM {
      LeadIs(msg, CMD_DELIM, |msg|);
    }
  }

  /** The server reads exactly what the client sent, if and only if no argument is empty or contains
      the separator and there are enough of them. Colons in arguments do no harm. */
  lemma RequestRoundTrip(cmds: seq<SrvCmd>, cmd: string, args: seq<string>)
    requires cmd != "" && CMD_DELIM !in cmd && Find(cmds, cmd) < |cmds|
    ensures Parse(cmds, CreateMsg(cmd, args)) == Call(Find(cmds, cmd), [cmd] + args) <==>
      Clean(args, ARG_DELIM) && |args| >= cmds[Find(cmds, cmd)].minArgs
  {
    hide NextToken;
    hide Tokens;
    hide Join;
    hide Find;
    hide Clean;
    var i, parsed := Find(cmds, cmd), Tokens(Join(args, ARG_DELIM), ARG_DELIM);
    TokenThenRest(cmd, CMD_DELIM, Join(args, ARG_DELIM));
    TokensOfJoined(args, ARG_DELIM);
    assert ([cmd] + parsed)[1..] == parsed && ([cmd] + args)[1..] == args;
  }

  /** A whole exchange: what the client reads in the reply to its request. An unknown command and too few
      arguments are told apart; otherwise it is what the command's action reports on exactly the arguments
      sent. */
  lemma ClientIsAnswered(cmds: seq<SrvCmd>, cmd: string, args: seq<string>)
    requires cmd != "" && CMD_DELIM !in cmd && Clean(args, ARG_DELIM)
    ensures var i, answer := Find(cmds, cmd), Answer(cmds, CreateMsg(cmd, args));
      && (i < |cmds| && |args| >= cmds[i].minArgs ==>
            var outcome := cmds[i].action([cmd] + args);
            && answer.Some?
            && ReadReply(Framed(answer.value.0, answer.value.1)) ==
                 Some((outcome.success, if outcome.resp.Some? then outcome.resp.value else "")))
      && (i < |cmds| && |args| < cmds[i].minArgs ==>
            answer.Some? && ReadReply(Framed(answer.value.0, answer.value.1)) == Some((false, "invalid_arg")))
      && (i == |cmds| ==>
            answer.Some? && ReadReply(Framed(answer.value.0, answer.value.1)) == Some((false, "invalid_cmd")))
  {
    RequestIsParsed(cmds, cmd, args);
    hide Parse;
    hide CreateMsg;
    hide Find;
    hide Clean;
    hide Framed;
    hide ReadReply;
    var answer := Answer(cmds, CreateMsg(cmd, args));
    if answer.Some? {
      ReplyRoundTrip(answer.value.0, answer.value.1);
    }
  }

  lemma RequestIsParsed(cmds: seq<SrvCmd>, cmd: string, args: seq<string>)
    requires cmd != "" && CMD_DELIM !in cmd && Clean(args, ARG_DELIM)
    ensures var i := Find(cmds, cmd);
      Parse(cmds, CreateMsg(cmd, args)) ==
        if i == |cmds| then InvalidCmd
        else if |args| < cmds[i].minArgs then InvalidArg(i)
        else Call(i, [cmd] + args)
  {
    TokenThenRest(cmd, CMD_DELIM, Join(args, ARG_DELIM));
    TokensOfJoined(args, ARG_DELIM);
    hide NextToken;
    hide Tokens;
    hide Join;
    hide Find;
    hide Clean;
  }

  /** The client reads back exactly what the server answered, colons in the text included. */
  lemma ReplyRoundTrip(success: bool, text: string)
    ensures ReadReply(Framed(success, text)) == Some((success, text))
  {
    var name := if success then "success" else "failure";
    var msg := name + [CMD_DELIM] + text;
    assert Framed(success, text) == msg;
    assert msg[..7] == name && msg[8..] == text;
    SpanStopsAt(msg, CMD_DELIM, 7);
    assert "failure"[0] != "success"[0];
  }
}
