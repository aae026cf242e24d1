/** The command socket of a Unix service (qtservice_unix.cpp): one cached text per connection, cut at CRLF,
    each line executed under the service flags and answered. */
module UnixService {
  import opened Text

  datatype Flags = Flags(cannotBeStopped: bool, canBeSuspended: bool)

  /** The calls into the service and the application. */
  datatype Call = Stop | Quit | Pause | Resume | ProcessCommand(code: int)

  /** `QString::toInt`: white space around the number is allowed, anything else gives 0. */
  function ToInt(text: string): int {
    var s := Trim(text);
    var signed := s != "" && (s[0] == '-' || s[0] == '+');
    var digits := if signed then s[1..] else s;
    if digits == "" || !AllDigits(digits, 10) then 0
    else
      var n: int := if signed && s[0] == '-' then -(Value(digits, 10) as int) else Value(digits, 10);
      if -INT_MAX - 1 <= n <= INT_MAX then n else 0
  }

  /** The calls made for a command, and whether it is answered with "true". */
  function Effect(flags: Flags, cmd: string): (seq<Call>, bool) {
    if cmd == "terminate" then
      if flags.cannotBeStopped then ([], false) else ([Stop, Quit], true)
    else if cmd == "pause" then
      if flags.canBeSuspended then ([Pause], true) else ([], false)
    else if cmd == "resume" then
      if flags.canBeSuspended then ([Resume], true) else ([], false)
    else if cmd == "alive" then ([], true)
    else if |cmd| > 4 && cmd[..4] == "num:" then ([ProcessCommand(ToInt(cmd[4..]))], true)
    else ([], false)
  }

  function Reply(ok: bool): string { if ok then "true" else "false" }

  /** One connection: its cache, the calls made and the replies written for it, and, as a history,
      the lines taken from the cache. */
  datatype Session = Session(cache: string, calls: seq<Call>, replies: seq<string>, consumed: seq<string>)

  const FRESH := Session("", [], [], [])

  function Execute(flags: Flags, s: Session, cmd: string): Session {
    var (calls, ok) := Effect(flags, cmd);
    s.(calls := s.calls + calls, replies := s.replies + [Reply(ok)])
  }

  /** `getCommand`: the first line is removed from the cache; without one the command is empty. */
  function TakeLine(s: Session): (next: (Session, string))
    ensures next.1 != "" ==> |next.0.cache| < |s.cache|
  {
    match Find(s.cache, CRLF)
    case None => (s, "")
    case Some(i) => (s.(cache := s.cache[i + 2..], consumed := s.consumed + [s.cache[..i]]), s.cache[..i])
  }

  /** The loop of `slotReady`: it ends at an empty command, whether or not a line was there. */
  function Serve(flags: Flags, s: Session): Session
    decreases |s.cache|
  {
    var (s', cmd) := TakeLine(s);
    if cmd == "" then s' else Serve(flags, Execute(flags, s', cmd))
  }

  function OnReady(flags: Flags, s: Session, data: string): Session {
    Serve(flags, s.(cache := s.cache + data))
  }

  /** Any number of `readyRead` signals of one connection. */
  function ReadAll(flags: Flags, s: Session, pieces: seq<string>): Session
    decreases |pieces|
  {
    if pieces == [] then s else ReadAll(flags, OnReady(flags, s, pieces[0]), pieces[1..])
  }

  // All connections of the server

  datatype Logged = Logged(connection: nat, call: Call)

  datatype Server = Server(flags: Flags, sessions: map<nat, Session>, log: seq<Logged>)

  function SessionOf(server: Server, c: nat): Session {
    if c in server.sessions then server.sessions[c] else FRESH
  }

  function Tagged(c: nat, calls: seq<Call>): seq<Logged> {
    seq(|calls|, i requires 0 <= i < |calls| => Logged(c, calls[i]))
  }

  lemma {:induction false} ServeKeepsCalls(flags: Flags, s: Session)
    ensures s.calls <= Serve(flags, s).calls
    decreases |s.cache|
  {
    var (s', cmd) := TakeLine(s);
    if cmd != "" {
      ServeKeepsCalls(flags, Execute(flags, s', cmd));
    }
  }

  /** A `readyRead` of connection `c`: only its session changes, and its new calls are logged. */
  function Deliver(server: Server, c: nat, data: string): Server {
    var s := SessionOf(server, c);
    var s' := OnReady(server.flags, s, data);
    ServeKeepsCalls(server.flags, s.(cache := s.cache + data));
    server.(sessions := server.sessions[c := s'], log := server.log + Tagged(c, s'.calls[|s.calls|..]))
  }

  /** The slot in the form of the source: the cache is cut and the log extended in place. */
  class CommandServer {
    const flags: Flags
    var sessions: map<nat, Session>
    var log: seq<Logged>

    ghost function View(): Server
      reads this
    {
      Server(flags, sessions, log)
    }

    constructor (flags: Flags)
      ensures View() == Server(flags, map[], [])
    {
      this.flags, sessions, log := flags, map[], [];
    }

    method GetCommand(c: nat) returns (cmd: string)
      requires c in sessions
      modifies this`sessions
      ensures sessions == old(sessions)[c := TakeLine(old(sessions)[c]).0] && cmd == TakeLine(old(sessions)[c]).1
    {
      var s := sessions[c];
      var pos := Find(s.cache, CRLF);
      if pos.None? {
        return "";
      }
      cmd := s.cache[..pos.value];
      sessions := sessions[c := s.(cache := s.cache[pos.value + 2..], consumed := s.consumed + [cmd])];
    }

    method CallService(c: nat, call: Call)
      requires c in sessions
      modifies this
      ensures sessions == old(sessions)[c := old(sessions)[c].(calls := old(sessions)[c].calls + [call])]
      ensures log == old(log) + [Logged(c, call)]
    {
      sessions := sessions[c := sessions[c].(calls := sessions[c].calls + [call])];
      log := log + [Logged(c, call)];
    }

    /** The branches of the slot for one command, up to and including the reply. */
    method RunCommand(c: nat, cmd: string)
      requires c in sessions
      modifies this
      ensures sessions == old(sessions)[c := Execute(flags, old(sessions)[c], cmd)]
      ensures log == old(log) + Tagged(c, Effect(flags, cmd).0)
    {
      var retValue := false;
      ghost var calls := sessions[c].calls;
      assert calls + [] == calls && calls + [Stop] + [Quit] == calls + [Stop, Quit];
      if cmd == "terminate" {
        if !flags.cannotBeStopped {
          CallService(c, Stop);
          CallService(c, Quit);
          retValue := true;
        }
      } else if cmd == "pause" {
        if flags.canBeSuspended {
          CallService(c, Pause);
          retValue := true;
        }
      } else if cmd == "resume" {
        if flags.canBeSuspended {
          CallService(c, Resume);
          retValue := true;
        }
      } else if cmd == "alive" {
        retValue := true;
      } else if |cmd| > 4 && cmd[..4] == "num:" {
        CallService(c, ProcessCommand(ToInt(cmd[4..])));
        retValue := true;
      }
      sessions := sessions[c := sessions[c].(replies := sessions[c].replies + [Reply(retValue)])];
    }

    method RunAndFetch(c: nat, cmd: string) returns (next: string)
      requires c in sessions
      modifies this
      ensures c in sessions && (sessions[c], next) == TakeLine(Execute(flags, old(sessions)[c], cmd))
      ensures sessions == old(sessions)[c := sessions[c]] && log == old(log) + Tagged(c, Effect(flags, cmd).0)
    {
      RunCommand(c, cmd);
      next := GetCommand(c);
    }

    /** The loop of the slot, up to the empty command. */
    method ServeLoop(c: nat) returns (ghost made: seq<Call>)
      requires c in sessions
      modifies this
      ensures sessions == old(sessions)[c := Serve(flags, old(sessions)[c])]
      ensures sessions[c].calls == old(sessions)[c].calls + made && log == old(log) + Tagged(c, made)
    {
      hide Serve, Effect, Find;
      ghost var target, calls := Serve(flags, sessions[c]), sessions[c].calls;
      ServeNext(flags, sessions[c]);
      var cmd := GetCommand(c);
      ghost var s := sessions[c];
      made := [];
      while cmd != ""
        invariant sessions == old(sessions)[c := s]
        invariant target == if cmd == "" then s else Serve(flags, Execute(flags, s, cmd))
        invariant s.calls == calls + made
        invariant log == old(log) + Tagged(c, made)
        decreases |s.cache| + if cmd == "" then 0 else 1
      {
        ghost var more := Effect(flags, cmd).0;
        LogNext(old(log), c, calls, made, more);
        ServeNext(flags, Execute(flags, s, cmd));
        cmd := RunAndFetch(c, cmd);
        s, made := sessions[c], made + more;
      }
    }

    method SlotReady(c: nat, data: string)
      modifies this
      ensures View() == Deliver(old(View()), c, data)
    {
      var s := if c in sessions then sessions[c] else FRESH;
      sessions := sessions[c := s.(cache := s.cache + data)];
      ghost var made := ServeLoop(c);
      assert (s.calls + made)[|s.calls|..] == made;
    }
  }

  lemma ServeNext(flags: Flags, s: Session)
    ensures var (s', cmd) := TakeLine(s);
            Serve(flags, s) == if cmd == "" then s' else Serve(flags, Execute(flags, s', cmd))
  {
  }

  lemma LogNext(log: seq<Logged>, c: nat, calls: seq<Call>, made: seq<Call>, more: seq<Call>)
    ensures log + Tagged(c, made) + Tagged(c, more) == log + Tagged(c, made + more)
    ensures calls + made + more == calls + (made + more)
  {
  }
}
