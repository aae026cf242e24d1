/** What the command socket does with a stream: conservation, independence of the cuts and of other
    connections, and the controller at the other end. */
module UnixStreams {
  import opened Text
  import opened UnixService

  // Lines of a stream

  function Terminated(lines: seq<string>): string {
    if lines == [] then "" else lines[0] + CRLF + Terminated(lines[1..])
  }

  /** The complete lines of a stream. */
  function Lines(stream: string): seq<string>
    decreases |stream|
  {
    match Find(stream, CRLF)
    case None => []
    case Some(i) => [stream[..i]] + Lines(stream[i + 2..])
  }

  ghost predicate AreLines(lines: seq<string>) {
    forall i | 0 <= i < |lines| :: !Contains(lines[i], CRLF)
  }

  lemma LinesCons(line: string, rest: string)
    requires !Contains(line, CRLF)
    ensures Lines(line + CRLF + rest) == [line] + Lines(rest)
  {
    FindLineEnd(line, rest);
    var s := line + CRLF + rest;
    assert s[..|line|] == line && s[|line| + 2..] == rest;
  }

  lemma TerminatedCons(line: string, behind: string, rest: string)
    ensures line + CRLF + behind + rest == line + CRLF + (behind + rest)
  {
  }

  lemma HeadThenTail(lines: seq<string>, more: seq<string>)
    requires lines != []
    ensures [lines[0]] + (lines[1..] + more) == lines + more
  {
  }

  lemma {:induction false} LinesOfTerminated(lines: seq<string>, rest: string)
    requires AreLines(lines)
    ensures Lines(Terminated(lines) + rest) == lines + Lines(rest)
  {
    if lines == [] {
      assert Terminated(lines) + rest == rest;
      assert [] + Lines(rest) == Lines(rest);
    } else {
      TerminatedCons(lines[0], Terminated(lines[1..]), rest);
      LinesCons(lines[0], Terminated(lines[1..]) + rest);
      LinesOfTerminated(lines[1..], rest);
      HeadThenTail(lines, Lines(rest));
    }
  }

  lemma {:induction false} TerminatedNext(lines: seq<string>, line: string, rest: string)
    ensures Terminated(lines + [line]) + rest == Terminated(lines) + (line + CRLF + rest)
  {
    if lines == [] {
      assert [line][1..] == [] && lines + [line] == [line];
      assert line + CRLF + "" == line + CRLF;
    } else {
      assert (lines + [line])[1..] == lines[1..] + [line];
      TerminatedNext(lines[1..], line, rest);
      TerminatedCons(lines[0], Terminated(lines[1..] + [line]), rest);
      TerminatedCons(lines[0], Terminated(lines[1..]), line + CRLF + rest);
    }
  }

  // What the lines amount to

  /** The commands among lines: the non-empty ones. */
  function Commands(lines: seq<string>): seq<string> {
    if lines == [] then []
    else
      var line := lines[|lines| - 1];
      Commands(lines[..|lines| - 1]) + if line == "" then [] else [line]
  }

  function Replies(flags: Flags, cmds: seq<string>): seq<string> {
    seq(|cmds|, i requires 0 <= i < |cmds| => Reply(Effect(flags, cmds[i]).1))
  }

  function Calls(flags: Flags, cmds: seq<string>): seq<Call> {
    if cmds == [] then [] else Calls(flags, cmds[..|cmds| - 1]) + Effect(flags, cmds[|cmds| - 1]).0
  }

  lemma {:induction false} CommandsAppend(a: seq<string>, b: seq<string>)
    ensures Commands(a + b) == Commands(a) + Commands(b)
  {
    if b == [] {
      assert a + b == a;
    } else {
      assert (a + b)[..|a + b| - 1] == a + b[..|b| - 1];
      CommandsAppend(a, b[..|b| - 1]);
    }
  }

  /** A session accounts for the stream it has received: the consumed lines, each with its CRLF, and the cache
      spell the stream, and exactly the commands among the lines have been run, in order, with one reply each. */
  ghost predicate Accounts(flags: Flags, s: Session, stream: string) {
    && AreLines(s.consumed)
    && Terminated(s.consumed) + s.cache == stream
    && s.replies == Replies(flags, Commands(s.consumed))
    && s.calls == Calls(flags, Commands(s.consumed))
  }

  /** A complete line is left in the cache only behind an empty line. */
  predicate Drained(s: Session) {
    Lines(s.cache) == [] || (s.consumed != [] && s.consumed[|s.consumed| - 1] == "")
  }

  lemma CommandsNext(lines: seq<string>, line: string)
    ensures Commands(lines + [line]) == Commands(lines) + if line == "" then [] else [line]
  {
    assert (lines + [line])[..|lines|] == lines;
  }

  lemma OutcomeNext(flags: Flags, cmds: seq<string>, cmd: string)
    ensures Calls(flags, cmds + [cmd]) == Calls(flags, cmds) + Effect(flags, cmd).0
    ensures Replies(flags, cmds + [cmd]) == Replies(flags, cmds) + [Reply(Effect(flags, cmd).1)]
  {
    assert (cmds + [cmd])[..|cmds|] == cmds;
  }

  /** What one more line adds to the calls and the replies. */
  lemma LineAdds(flags: Flags, lines: seq<string>, line: string)
    ensures var cmds, more := Commands(lines), Commands(lines + [line]);
            if line == "" then more == cmds
            else
              && Calls(flags, more) == Calls(flags, cmds) + Effect(flags, line).0
              && Replies(flags, more) == Replies(flags, cmds) + [Reply(Effect(flags, line).1)]
  {
    hide Commands, Calls, Replies, Effect;
    CommandsNext(lines, line);
    OutcomeNext(flags, Commands(lines), line);
    assert Commands(lines) + [] == Commands(lines);
  }

  lemma AreLinesNext(lines: seq<string>, line: string)
    requires AreLines(lines) && !Contains(line, CRLF)
    ensures AreLines(lines + [line])
  {
    hide Contains;
  }

  /** The cache without its first line. */
  lemma CacheSplits(cache: string, i: nat)
    requires Find(cache, CRLF) == Some(i)
    ensures !Contains(cache[..i], CRLF) && cache == cache[..i] + CRLF + cache[i + 2..]
  {
    FoundLineIsPlain(cache);
    assert cache[i..i + 2] == CRLF;
  }

  lemma LineAccounts(flags: Flags, s: Session, stream: string)
    requires Accounts(flags, s, stream) && Find(s.cache, CRLF).Some?
    ensures var (s', cmd) := TakeLine(s);
            Accounts(flags, if cmd == "" then s' else Execute(flags, s', cmd), stream)
  {
    hide Commands, Calls, Replies, Effect, AreLines, Terminated, Find, Contains;
    var (s', cmd) := TakeLine(s);
    CacheSplits(s.cache, |cmd|);
    AreLinesNext(s.consumed, cmd);
    TerminatedNext(s.consumed, cmd, s'.cache);
    LineAdds(flags, s.consumed, cmd);
  }

  lemma {:induction false} ServeAccounts(flags: Flags, s: Session, stream: string)
    requires Accounts(flags, s, stream)
    ensures Accounts(flags, Serve(flags, s), stream) && Drained(Serve(flags, s))
    decreases |s.cache|
  {
    if Find(s.cache, CRLF).Some? {
      LineAccounts(flags, s, stream);
      var (s', cmd) := TakeLine(s);
      if cmd != "" {
        ServeAccounts(flags, Execute(flags, s', cmd), stream);
      }
    }
  }

  lemma LongerCache(flags: Flags, s: Session, data: string, stream: string)
    requires Accounts(flags, s, stream)
    ensures Accounts(flags, s.(cache := s.cache + data), stream + data)
  {
    hide Commands, Calls, Replies, AreLines, Terminated;
    Regroup(Terminated(s.consumed), s.cache, data);
  }

  lemma Regroup(a: string, b: string, c: string)
    ensures a + b + c == a + (b + c)
  {
  }

  lemma SignalAccounts(flags: Flags, s: Session, data: string, stream: string)
    requires Accounts(flags, s, stream)
    ensures Accounts(flags, OnReady(flags, s, data), stream + data) && Drained(OnReady(flags, s, data))
  {
    hide Accounts, Drained, Serve;
    LongerCache(flags, s, data, stream);
    ServeAccounts(flags, s.(cache := s.cache + data), stream + data);
  }

  lemma ConcatHead(stream: string, pieces: seq<string>)
    requires pieces != []
    ensures stream + pieces[0] + Concat(pieces[1..]) == stream + Concat(pieces)
  {
  }

  /** Conservation over any number of `readyRead` signals. */
  lemma {:induction false} Conservation(flags: Flags, s: Session, pieces: seq<string>, stream: string)
    requires Accounts(flags, s, stream) && Drained(s)
    ensures Accounts(flags, ReadAll(flags, s, pieces), stream + Concat(pieces)) && Drained(ReadAll(flags, s, pieces))
    decreases |pieces|
  {
    if pieces == [] {
      assert stream + "" == stream;
    } else {
      SignalAccounts(flags, s, pieces[0], stream);
      ConcatHead(stream, pieces);
      Conservation(flags, OnReady(flags, s, pieces[0]), pieces[1..], stream + pieces[0]);
    }
  }

  // Independence of the cuts

  /** No command comes behind an empty line. */
  predicate Settled(lines: seq<string>) {
    forall i, j | 0 <= i < j < |lines| && lines[i] == "" :: lines[j] == ""
  }

  /** The lines consumed are the first lines of the stream; the rest of them wait in the cache. */
  lemma ConsumedIsPrefix(flags: Flags, s: Session, stream: string)
    requires Accounts(flags, s, stream)
    ensures s.consumed + Lines(s.cache) == Lines(stream)
  {
    LinesOfTerminated(s.consumed, s.cache);
  }

  lemma {:induction false} NoCommands(lines: seq<string>)
    ensures Commands(lines) == [] <==> forall i | 0 <= i < |lines| :: lines[i] == ""
  {
    if lines != [] {
      NoCommands(lines[..|lines| - 1]);
      forall i | 0 <= i < |lines| - 1 ensures lines[i] == lines[..|lines| - 1][i] {}
    }
  }

  /** On a stream without a command behind an empty line, all commands have been run. */
  lemma SettledRunsAll(flags: Flags, s: Session, stream: string)
    requires Accounts(flags, s, stream) && Drained(s) && Settled(Lines(stream))
    ensures Commands(s.consumed) == Commands(Lines(stream))
  {
    ConsumedIsPrefix(flags, s, stream);
    var waiting, n := Lines(s.cache), |s.consumed|;
    CommandsAppend(s.consumed, waiting);
    if waiting != [] {
      assert Lines(stream)[n - 1] == "";
      forall i | 0 <= i < |waiting| ensures waiting[i] == "" {
        assert waiting[i] == Lines(stream)[n + i];
      }
      NoCommands(waiting);
    }
  }

  /** The loop of one signal stops at the first empty line. */
  lemma {:induction false} StopsAtEmpty(flags: Flags, s: Session)
    ensures var t := Serve(flags, s);
            |s.consumed| <= |t.consumed| && forall k | |s.consumed| <= k < |t.consumed| - 1 :: t.consumed[k] != ""
    ensures s.consumed <= Serve(flags, s).consumed
    decreases |s.cache|
  {
    var (s', cmd) := TakeLine(s);
    if cmd != "" {
      StopsAtEmpty(flags, Execute(flags, s', cmd));
    }
  }

  lemma FreshAccounts(flags: Flags)
    ensures Accounts(flags, FRESH, "")
  {
  }

  lemma CommandMissed(consumed: seq<string>, waiting: seq<string>, j: nat)
    requires |consumed| <= j < |consumed + waiting| && (consumed + waiting)[j] != ""
    ensures Commands(consumed) != Commands(consumed + waiting)
  {
    CommandsAppend(consumed, waiting);
    NoCommands(waiting);
    assert waiting[j - |consumed|] != "";
    assert |Commands(consumed) + Commands(waiting)| > |Commands(consumed)|;
  }

  /** Received at once, a stream with a command behind an empty line leaves that command in the cache. */
  lemma UnsettledStops(flags: Flags, stream: string)
    requires !Settled(Lines(stream))
    ensures Commands(OnReady(flags, FRESH, stream).consumed) != Commands(Lines(stream))
  {
    hide Lines, Find, Commands, Serve, Terminated, Replies, Calls;
    var t := OnReady(flags, FRESH, stream);
    FreshAccounts(flags);
    SignalAccounts(flags, FRESH, stream, "");
    assert "" + stream == stream;
    ConsumedIsPrefix(flags, t, stream);
    StopsAtEmpty(flags, FRESH.(cache := FRESH.cache + stream));
    var lines := Lines(stream);
    var i, j :| 0 <= i < j < |lines| && lines[i] == "" && lines[j] != "";
    assert i < |t.consumed| ==> t.consumed[i] == lines[i];
    CommandMissed(t.consumed, Lines(t.cache), j);
  }

  lemma AtOnce(flags: Flags, s: Session, data: string)
    ensures Concat([data]) == data && ReadAll(flags, s, [data]) == OnReady(flags, s, data)
  {
    assert [data][1..] == [];
  }

  /** However a stream is cut into signals, a fresh connection runs exactly its commands, if and only if
      no command comes behind an empty line. */
  lemma EveryCutRunsAll(flags: Flags, stream: string)
    ensures Settled(Lines(stream)) <==>
            forall pieces | Concat(pieces) == stream ::
              Commands(ReadAll(flags, FRESH, pieces).consumed) == Commands(Lines(stream))
  {
    if Settled(Lines(stream)) {
      forall pieces | Concat(pieces) == stream
        ensures Commands(ReadAll(flags, FRESH, pieces).consumed) == Commands(Lines(stream))
      {
        Conservation(flags, FRESH, pieces, "");
        assert "" + Concat(pieces) == stream;
        SettledRunsAll(flags, ReadAll(flags, FRESH, pieces), stream);
      }
    } else {
      UnsettledStops(flags, stream);
      AtOnce(flags, FRESH, stream);
    }
  }

  /** What a settled stream has caused once it is received, whatever the cuts. */
  lemma SettledOutcome(flags: Flags, pieces: seq<string>)
    requires Settled(Lines(Concat(pieces)))
    ensures var t, cmds := ReadAll(flags, FRESH, pieces), Commands(Lines(Concat(pieces)));
            t.replies == Replies(flags, cmds) && t.calls == Calls(flags, cmds)
  {
    Conservation(flags, FRESH, pieces, "");
    assert "" + Concat(pieces) == Concat(pieces);
    SettledRunsAll(flags, ReadAll(flags, FRESH, pieces), Concat(pieces));
  }

  /** The smallest difference: an empty line before a command, at once and in two signals. */
  lemma EmptyLineMatters(flags: Flags)
    ensures !Settled(Lines("\r\nalive\r\n"))
  {
    var s := "\r\nalive\r\n";
    assert s == "" + CRLF + "alive\r\n" && "alive\r\n" == "alive" + CRLF + "";
    var lines := ["", "alive"];
    forall j ensures !At("", CRLF, j) && !At("alive", CRLF, j) {
      if 0 <= j <= 3 {
        assert "alive"[j..j + 2][0] == "alive"[j];
      }
    }
    assert lines[1..] == ["alive"] && ["alive"][1..] == [];
    assert Terminated(["alive"]) == "alive" + CRLF + "";
    assert Terminated(lines) + "" == s;
    LinesOfTerminated(lines, "");
    assert lines + Lines("") == lines;
    assert lines[0] == "" && lines[1] != "";
  }

  // Interleaving with other connections

  datatype Signal = Signal(connection: nat, data: string)

  function Run(server: Server, signals: seq<Signal>): Server
    decreases |signals|
  {
    if signals == [] then server else Run(Deliver(server, signals[0].connection, signals[0].data), signals[1..])
  }

  /** What arrived on one connection. */
  function DataOf(signals: seq<Signal>, c: nat): seq<string> {
    if signals == [] then []
    else (if signals[0].connection == c then [signals[0].data] else []) + DataOf(signals[1..], c)
  }

  /** The calls logged for one connection. */
  function CallsOf(log: seq<Logged>, c: nat): seq<Call> {
    if log == [] then []
    else CallsOf(log[..|log| - 1], c) + if log[|log| - 1].connection == c then [log[|log| - 1].call] else []
  }

  lemma {:induction false} CallsOfTagged(log: seq<Logged>, c: nat, calls: seq<Call>, d: nat)
    ensures CallsOf(log + Tagged(c, calls), d) == CallsOf(log, d) + if c == d then calls else []
  {
    if calls == [] {
      assert log + Tagged(c, calls) == log;
    } else {
      var front := calls[..|calls| - 1];
      assert (log + Tagged(c, calls))[..|log| + |calls| - 1] == log + Tagged(c, front);
      CallsOfTagged(log, c, front, d);
      assert calls == front + [calls[|calls| - 1]];
    }
  }

  /** The log holds, connection by connection, the calls of the sessions. */
  ghost predicate LogIsComplete(server: Server) {
    forall c: nat :: CallsOf(server.log, c) == SessionOf(server, c).calls
  }

  lemma DeliverLogs(server: Server, c: nat, data: string)
    requires LogIsComplete(server)
    ensures LogIsComplete(Deliver(server, c, data))
  {
    var s, after := SessionOf(server, c), Deliver(server, c, data);
    var s' := SessionOf(after, c);
    ServeKeepsCalls(server.flags, s.(cache := s.cache + data));
    forall d: nat ensures CallsOf(after.log, d) == SessionOf(after, d).calls {
      CallsOfTagged(server.log, c, s'.calls[|s.calls|..], d);
      assert CallsOf(server.log, d) == SessionOf(server, d).calls;
      assert SessionOf(after, d).calls == if c == d then s'.calls else SessionOf(server, d).calls;
      assert s.calls + s'.calls[|s.calls|..] == s'.calls;
    }
  }

  lemma DeliverSession(server: Server, c: nat, data: string, d: nat)
    ensures var after := Deliver(server, c, data);
            && after.flags == server.flags
            && SessionOf(after, d) == if c == d then OnReady(server.flags, SessionOf(server, d), data)
                                      else SessionOf(server, d)
  {
  }

  lemma ReadAllCons(flags: Flags, s: Session, data: string, rest: seq<string>)
    ensures ReadAll(flags, s, [data] + rest) == ReadAll(flags, OnReady(flags, s, data), rest)
  {
    assert ([data] + rest)[1..] == rest;
  }

  /** In any interleaving each connection fares as if it were alone, and the log tells its calls in its order. */
  lemma {:induction false} Interleaving(server: Server, signals: seq<Signal>, c: nat)
    requires LogIsComplete(server)
    ensures SessionOf(Run(server, signals), c) == ReadAll(server.flags, SessionOf(server, c), DataOf(signals, c))
    ensures LogIsComplete(Run(server, signals))
    decreases |signals|
  {
    if signals != [] {
      var Signal(d, data) := signals[0];
      var next, rest := Deliver(server, d, data), DataOf(signals[1..], c);
      DeliverLogs(server, d, data);
      DeliverSession(server, d, data, c);
      Interleaving(next, signals[1..], c);
      ReadAllCons(server.flags, SessionOf(server, c), data, rest);
      assert [] + rest == rest;
    }
  }

  // The controller

  /** `sendCmd` after its request has been written: the reply that is there to be read decides. */
  function SendCmd(replies: seq<string>): bool {
    Concat(replies) == "true"
  }

  /** A command sent over a fresh connection, cut in any way, among the traffic of any other connections:
      it is run once, and the controller is told whether it was accepted. */
  lemma ControllerCommand(server: Server, signals: seq<Signal>, c: nat, cmd: string)
    requires LogIsComplete(server) && c !in server.sessions
    requires cmd != "" && !Contains(cmd, CRLF) && Concat(DataOf(signals, c)) == cmd + CRLF
    ensures var after := Run(server, signals);
            && SendCmd(SessionOf(after, c).replies) == Effect(server.flags, cmd).1
            && SessionOf(after, c).replies == [if Effect(server.flags, cmd).1 then "true" else "false"]
            && CallsOf(after.log, c) == Effect(server.flags, cmd).0
  {
    Interleaving(server, signals, c);
    assert Terminated([cmd]) + "" == cmd + CRLF by {
      assert [cmd][1..] == [];
    }
    LinesOfTerminated([cmd], "");
    assert Lines(cmd + CRLF) == [cmd];
    SettledOutcome(server.flags, DataOf(signals, c));
    OneCommand(server.flags, cmd);
  }

  lemma OneCommand(flags: Flags, cmd: string)
    requires cmd != ""
    ensures Commands([cmd]) == [cmd] && Calls(flags, [cmd]) == Effect(flags, cmd).0
    ensures SendCmd(Replies(flags, [cmd])) == Effect(flags, cmd).1
    ensures Replies(flags, [cmd]) == [if Effect(flags, cmd).1 then "true" else "false"]
  {
    assert [cmd][..0] == [];
    var reply := Reply(Effect(flags, cmd).1);
    assert Replies(flags, [cmd]) == [reply] && [reply][1..] == [];
    assert Concat([reply]) == reply + "";
  }

  /** `QString::number` then `QString::toInt`. */
  lemma NumberRoundTrip(code: int)
    requires -INT_MAX - 1 <= code <= INT_MAX
    ensures ToInt(Decimal(code)) == code
  {
    var text := Decimal(code);
    var digits := Digits(if code < 0 then -code else code, 10);
    DigitsRead(if code < 0 then -code else code, 10);
    assert IsDigit(digits[0], 10) && IsDigit(digits[|digits| - 1], 10);
    assert text[|text| - 1] == digits[|digits| - 1];
    assert code < 0 ==> text[1..] == digits;
    assert TrimLeft(text) == text && TrimRight(text) == text;
  }

  lemma NumberIsPlain(code: int)
    ensures !Contains("num:" + Decimal(code), CRLF)
  {
    var text := "num:" + Decimal(code);
    var digits := Digits(if code < 0 then -code else code, 10);
    DigitsRead(if code < 0 then -code else code, 10);
    forall j ensures !At(text, CRLF, j) {
      if 0 <= j <= |text| - 2 {
        assert text[j..j + 2][0] == text[j];
        var k := |text| - |digits|;
        assert j >= k ==> text[j] == digits[j - k] && IsDigit(digits[j - k], 10);
      }
    }
  }

  /** `sendCommand`: for every 32-bit code, the service is called once with that very code. */
  lemma ControllerSendCommand(server: Server, signals: seq<Signal>, c: nat, code: int)
    requires LogIsComplete(server) && c !in server.sessions
    requires -INT_MAX - 1 <= code <= INT_MAX
    requires Concat(DataOf(signals, c)) == "num:" + Decimal(code) + CRLF
    ensures var after := Run(server, signals);
            && SendCmd(SessionOf(after, c).replies) && SessionOf(after, c).replies == ["true"]
            && CallsOf(after.log, c) == [ProcessCommand(code)]
  {
    hide Decimal, ToInt, Run, LogIsComplete, CallsOf, DataOf, Concat, SendCmd;
    var cmd := "num:" + Decimal(code);
    NumberIsPlain(code);
    ControllerCommand(server, signals, c, cmd);
    NumberRoundTrip(code);
    assert cmd[..4] == "num:" && cmd[4..] == Decimal(code);
    assert cmd[0] == 'n';
  }

  /** `stop`, `pause` and `resume` return true exactly when the flags permit, and then the service is called once;
      the question whether the service is alive is answered without a call. */
  lemma ControllerVerbs(server: Server, signals: seq<Signal>, c: nat, cmd: string)
    requires LogIsComplete(server) && c !in server.sessions
    requires cmd == "terminate" || cmd == "pause" || cmd == "resume" || cmd == "alive"
    requires Concat(DataOf(signals, c)) == cmd + CRLF
    ensures var after := Run(server, signals);
            var permitted := if cmd == "terminate" then !server.flags.cannotBeStopped
                             else cmd == "alive" || server.flags.canBeSuspended;
            && SendCmd(SessionOf(after, c).replies) == permitted
            && SessionOf(after, c).replies == [if permitted then "true" else "false"]
            && CallsOf(after.log, c) == if !permitted then []
                                        else if cmd == "terminate" then [Stop, Quit]
                                        else if cmd == "pause" then [Pause]
                                        else if cmd == "resume" then [Resume] else []
  {
    WithoutCr(cmd);
    ControllerCommand(server, signals, c, cmd);
    assert "terminate"[0] == 't' && "pause"[0] == 'p' && "resume"[0] == 'r' && "alive"[0] == 'a';
  }

  /** Any other line is answered with "false" and leads to no call: a word the server does not know,
      and `num:` with nothing behind it. */
  lemma UnknownCommand(server: Server, signals: seq<Signal>, c: nat, cmd: string)
    requires LogIsComplete(server) && c !in server.sessions
    requires cmd != "" && !Contains(cmd, CRLF) && Concat(DataOf(signals, c)) == cmd + CRLF
    requires cmd != "terminate" && cmd != "pause" && cmd != "resume" && cmd != "alive" && !("num:" < cmd)
    ensures var after := Run(server, signals);
            && SessionOf(after, c).replies == ["false"] && CallsOf(after.log, c) == []
            && !SendCmd(SessionOf(after, c).replies)
  {
    hide Run, LogIsComplete, CallsOf, DataOf, Concat, SendCmd, ToInt, Contains;
    ControllerCommand(server, signals, c, cmd);
    assert |cmd| > 4 && cmd[..4] == "num:" ==> "num:" < cmd;
  }

  /** A number command is answered with "true" whatever stands behind `num:`, and passes on what `toInt` makes of it. */
  lemma NumberCommand(server: Server, signals: seq<Signal>, c: nat, text: string)
    requires LogIsComplete(server) && c !in server.sessions
    requires text != "" && !Contains("num:" + text, CRLF) && Concat(DataOf(signals, c)) == "num:" + text + CRLF
    ensures var after := Run(server, signals);
            SessionOf(after, c).replies == ["true"] && CallsOf(after.log, c) == [ProcessCommand(ToInt(text))]
  {
    hide Run, LogIsComplete, CallsOf, DataOf, Concat, SendCmd, ToInt, Contains;
    var cmd := "num:" + text;
    ControllerCommand(server, signals, c, cmd);
    assert cmd[..4] == "num:" && cmd[4..] == text && cmd[0] == 'n';
  }

  /** A signed number between white space is read as its value if 32 bits hold it, and as 0 if not. */
  lemma ToIntReads(before: string, sign: string, digits: string, behind: string)
    requires AllSpace(before) && AllSpace(behind) && (sign == "" || sign == "+" || sign == "-")
    requires digits != "" && AllDigits(digits, 10)
    ensures var value: int := if sign == "-" then -(Value(digits, 10) as int) else Value(digits, 10);
            ToInt(before + (sign + digits) + behind) == if -0x8000_0000 <= value < 0x8000_0000 then value else 0
  {
    hide Trim, Value;
    var text := sign + digits;
    assert IsDigit(digits[0], 10) && IsDigit(digits[|digits| - 1], 10) && text[|text| - 1] == digits[|digits| - 1];
    assert text[0] == if sign == "" then digits[0] else sign[0];
    TrimOf(before, text, behind);
    assert if sign == "" then text == digits else text[1..] == digits;
  }

  /** Anything else is 0. */
  lemma ToIntRefuses(before: string, text: string, behind: string)
    requires AllSpace(before) && AllSpace(behind) && IsTight(text)
    requires var digits := if text != "" && (text[0] == '-' || text[0] == '+') then text[1..] else text;
             digits == "" || !AllDigits(digits, 10)
    ensures ToInt(before + text + behind) == 0
  {
    hide Trim, Value;
    TrimOf(before, text, behind);
  }

  // The functions of the controller

  /** What a user of the controller asks for. */
  datatype Request = StopService | PauseService | ResumeService | SendCommand(code: int) | IsAlive

  /** The text that `stop`, `pause`, `resume`, `sendCommand` and the question at the start pass to `sendCmd`. */
  function CommandOf(request: Request): string {
    match request
    case StopService => "terminate"
    case PauseService => "pause"
    case ResumeService => "resume"
    case SendCommand(code) => "num:" + Decimal(code)
    case IsAlive => "alive"
  }

  /** What `sendCmd` writes. */
  function Written(request: Request): string { CommandOf(request) + "\r\n" }

  /** End to end, among the traffic of any other connections and however its bytes are cut: the request leads
      to its own call and no other, exactly when the flags of the service permit it, and that is what
      the controller returns. */
  lemma ControllerRequest(server: Server, signals: seq<Signal>, c: nat, request: Request)
    requires LogIsComplete(server) && c !in server.sessions && Concat(DataOf(signals, c)) == Written(request)
    requires request.SendCommand? ==> -INT_MAX - 1 <= request.code <= INT_MAX
    ensures var after := Run(server, signals);
            var permitted := match request
                             case StopService => !server.flags.cannotBeStopped
                             case PauseService => server.flags.canBeSuspended
                             case ResumeService => server.flags.canBeSuspended
                             case _ => true;
            && SendCmd(SessionOf(after, c).replies) == permitted
            && CallsOf(after.log, c) == if !permitted then []
                                        else match request
                                             case StopService => [Stop, Quit]
                                             case PauseService => [Pause]
                                             case ResumeService => [Resume]
                                             case SendCommand(code) => [ProcessCommand(code)]
                                             case IsAlive => []
  {
    hide Run, LogIsComplete, CallsOf, DataOf, Concat, SendCmd, Decimal;
    match request
    case SendCommand(code) => ControllerSendCommand(server, signals, c, code);
    case _ => ControllerVerbs(server, signals, c, CommandOf(request));
  }
}
