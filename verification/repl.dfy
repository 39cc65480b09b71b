/**
 * The main loop of the shell: each input line is trimmed and sorted into a
 * command, and SQL text is gathered in a buffer until a trailing `;` or a
 * lone `/` hands the statement to executeSQL.
 */
module Repl {
  import opened Wrappers
  import opened JavaString
  import opened Session
  import opened Router

  /** What a trimmed input line is taken for, tested in this order. */
  datatype Command =
    | Skip         // empty line
    | Exit         // exit or quit
    | ClearScreen  // cls or clear
    | ShowStatus   // conn? or status
    | Reconnect    // a line starting with "conn " in any case
    | Help         // help or ?
    | Sql          // anything else: SQL text (or the `/` terminator)

  /** What an SQL line does to the buffer's statement. */
  datatype Action = NoDispatch | Dispatch(text: string)

  /** The command a trimmed line stands for; commands ignore case. */
  function Classify(line: string): (c: Command)
    ensures c == Skip <==> line == []
    ensures c == Reconnect ==> |line| >= 5
  {
    if line == [] then Skip
    else if EqualsIgnoreCase(line, "exit") || EqualsIgnoreCase(line, "quit") then Exit
    else if EqualsIgnoreCase(line, "cls") || EqualsIgnoreCase(line, "clear") then ClearScreen
    else if EqualsIgnoreCase(line, "conn?") || EqualsIgnoreCase(line, "status") then ShowStatus
    else if StartsWith(ToLower(line), "conn ") then Reconnect
    else if EqualsIgnoreCase(line, "help") || EqualsIgnoreCase(line, "?") then Help
    else Sql
  }

  /**
   * An SQL line added to the buffer. A lone `/` sends the buffer when it
   * holds anything; otherwise one trailing `;` is cut off, the rest trimmed
   * and appended with a space, and the `;` sends the buffer. The text sent
   * is always trimmed, the buffer is empty after every send, and a line
   * that sends nothing only extends the buffer.
   */
  function Accumulate(buffer: string, line: string): (r: (string, Action))
    ensures r.1.Dispatch? <==> (line == "/" && buffer != []) || (line != "/" && EndsWith(line, ";"))
    ensures r.1.Dispatch? ==> r.0 == [] && IsTrimmed(r.1.text)
    ensures r.1.NoDispatch? ==> buffer <= r.0
    ensures line == "/" && buffer != [] ==> r.1.text == Trim(buffer)
    ensures line == "/" && buffer == [] ==> r == (buffer, NoDispatch)
    ensures line != "/" && EndsWith(line, ";") ==> r.1.text == Trim(buffer + Trim(line[..|line| - 1]) + " ")
    ensures line != "/" && !EndsWith(line, ";") ==> r.0 == buffer + line + " "
  {
    if line == "/" then
      if buffer != [] then ([], Dispatch(Trim(buffer))) else (buffer, NoDispatch)
    else
      var endsWithSemi := EndsWith(line, ";");
      var text := if endsWithSemi then Trim(line[..|line| - 1]) else line;
      var appended := buffer + text + " ";
      if endsWithSemi then ([], Dispatch(Trim(appended))) else (appended, NoDispatch)
  }

  /** The state after one input line, the command it was, and what it sent. */
  datatype StepResult = StepResult(buffer: string, session: Session, command: Command, action: Action)

  /**
   * One pass of the loop body on a raw input line. `connectOk` is the
   * driver's answer should the line open a connection. Only SQL lines touch
   * the buffer and send statements; only exit and conn touch the session.
   */
  function Step(buffer: string, session: Session, raw: string, connectOk: bool): (r: StepResult)
    ensures r.command == Classify(Trim(raw))
    ensures r.action.Dispatch? ==> r.command == Sql && r.buffer == []
    ensures r.command != Sql ==> r.buffer == buffer && r.action == NoDispatch
    ensures r.command != Exit && r.command != Reconnect ==> r.session == session
    ensures r.command == Exit ==> r.session == CloseConnection(session)
    ensures r.command == Reconnect ==> r.session == HandleConn(session, Trim(raw), connectOk)
    ensures r.command == Sql ==> (r.buffer, r.action) == Accumulate(buffer, Trim(raw))
    ensures Valid(session) ==> Valid(r.session)
  {
    var line := Trim(raw);
    var command := Classify(line);
    match command
    case Exit => StepResult(buffer, CloseConnection(session), command, NoDispatch)
    case Reconnect => StepResult(buffer, HandleConn(session, line, connectOk), command, NoDispatch)
    case Sql =>
      var (b, a) := Accumulate(buffer, line);
      StepResult(b, session, command, a)
    case _ => StepResult(buffer, session, command, NoDispatch)
  }

  /** What a run of input lines leaves behind and which statements it executed. */
  datatype Trace = Trace(buffer: string, session: Session, executed: seq<Execution>, exited: bool)

  /**
   * The loop over a sequence of input lines, with the driver's answer for
   * each line that connects. It stops at the first exit; each sent
   * statement is routed with the connection as it stands at that moment.
   */
  function RunFrom(buffer: string, session: Session, lines: seq<string>, outcomes: seq<bool>): (t: Trace)
    requires |outcomes| == |lines|
    ensures Valid(session) ==> Valid(t.session)
    ensures t.exited ==> t.session.con.None?
    ensures !t.exited ==> forall k :: 0 <= k < |lines| ==> Classify(Trim(lines[k])) != Exit
    decreases |lines|
  {
    if lines == [] then Trace(buffer, session, [], false)
    else
      var r := Step(buffer, session, lines[0], outcomes[0]);
      if r.command == Exit then Trace(r.buffer, r.session, [], true)
      else
        var rest := RunFrom(r.buffer, r.session, lines[1..], outcomes[1..]);
        assert forall k :: 1 <= k < |lines| ==> lines[k] == lines[1..][k - 1];
        Trace(rest.buffer, rest.session, Sent(r) + rest.executed, rest.exited)
  }

  /** The statement a step hands to executeSQL, routed with the connection as it stands. */
  function Sent(r: StepResult): (e: seq<Execution>)
    ensures |e| <= 1
  {
    if r.action.Dispatch? then [ExecuteSql(r.action.text, r.session.con.Some?)] else []
  }

  /** One turn of the loop: the first line's step, then the rest of the run. */
  lemma RunFromCons(buffer: string, session: Session, lines: seq<string>, outcomes: seq<bool>)
    requires |outcomes| == |lines| > 0
    ensures var r := Step(buffer, session, lines[0], outcomes[0]);
            var t := RunFrom(buffer, session, lines, outcomes);
            var rest := RunFrom(r.buffer, r.session, lines[1..], outcomes[1..]);
            && (r.command == Exit ==> t == Trace(r.buffer, r.session, [], true))
            && (r.command != Exit ==> t == Trace(rest.buffer, rest.session, Sent(r) + rest.executed, rest.exited))
  {
  }

  // ---- properties of the loop ----------------------------------------------

  /** A blank line, or a `/` with nothing buffered, changes nothing and sends nothing. */
  lemma BlankOrLoneSlashIsNoOp(buffer: string, session: Session, raw: string, connectOk: bool)
    requires Trim(raw) == [] || (Trim(raw) == "/" && buffer == [])
    ensures var r := Step(buffer, session, raw, connectOk);
            r.buffer == buffer && r.session == session && r.action == NoDispatch
  {
    if Trim(raw) == "/" {
      assert ToUpper("/") == "/";
      assert ToLower("/") == "/";
    }
  }

  /** An SQL line with no terminator appends the trimmed line and a space, and sends nothing. */
  predicate PlainSql(raw: string) {
    var line := Trim(raw);
    Classify(line) == Sql && line != "/" && !EndsWith(line, ";")
  }

  lemma PlainSqlAppends(buffer: string, session: Session, raw: string, connectOk: bool)
    requires PlainSql(raw)
    ensures Step(buffer, session, raw, connectOk)
            == StepResult(buffer + Trim(raw) + " ", session, Sql, NoDispatch)
  {
  }

  /** The text a run of lines leaves in the buffer: each line trimmed, then a space. */
  function Appended(lines: seq<string>): string
    decreases |lines|
  {
    if lines == [] then [] else Trim(lines[0]) + " " + Appended(lines[1..])
  }

  /** Lines without a terminator only ever extend the statement being built. */
  lemma {:induction false} NoTerminatorNeverDispatches(buffer: string, session: Session,
                                                       lines: seq<string>, outcomes: seq<bool>)
    requires |outcomes| == |lines|
    requires forall k :: 0 <= k < |lines| ==> PlainSql(lines[k])
    ensures RunFrom(buffer, session, lines, outcomes) == Trace(buffer + Appended(lines), session, [], false)
    decreases |lines|
  {
    if lines != [] {
      var t := Trim(lines[0]);
      var b := buffer + t + " ";
      PlainSqlAppends(buffer, session, lines[0], outcomes[0]);
      assert Step(buffer, session, lines[0], outcomes[0]) == StepResult(b, session, Sql, NoDispatch);
      assert forall k :: 0 <= k < |lines| - 1 ==> lines[1..][k] == lines[k + 1];
      NoTerminatorNeverDispatches(b, session, lines[1..], outcomes[1..]);
      var rest := RunFrom(b, session, lines[1..], outcomes[1..]);
      assert RunFrom(buffer, session, lines, outcomes) == Trace(rest.buffer, rest.session, [] + rest.executed, rest.exited);
      AppendAssoc(buffer, t, [' ']);
      AppendAssoc(buffer, t + " ", Appended(lines[1..]));
    } else {
      assert buffer + [] == buffer;
    }
  }

  /**
   * Unterminated SQL lines followed by any further input: the lines only add
   * to the buffer, and the run goes on from there.
   */
  lemma {:induction false} RunSplit(buffer: string, session: Session, lines: seq<string>,
                                    rest: seq<string>, outcomes: seq<bool>)
    requires |outcomes| == |lines| + |rest|
    requires forall k :: 0 <= k < |lines| ==> PlainSql(lines[k])
    ensures RunFrom(buffer, session, lines + rest, outcomes)
            == RunFrom(buffer + Appended(lines), session, rest, outcomes[|lines|..])
    decreases |lines|
  {
    if lines == [] {
      assert lines + rest == rest;
      assert buffer + [] == buffer;
      assert outcomes[0..] == outcomes;
    } else {
      var all := lines + rest;
      var t := Trim(lines[0]);
      var b := buffer + t + " ";
      PlainSqlAppends(buffer, session, lines[0], outcomes[0]);
      assert all[0] == lines[0];
      assert all[1..] == lines[1..] + rest;
      RunFromCons(buffer, session, all, outcomes);
      assert forall k :: 0 <= k < |lines| - 1 ==> lines[1..][k] == lines[k + 1];
      RunSplit(b, session, lines[1..], rest, outcomes[1..]);
      assert outcomes[1..][|lines| - 1..] == outcomes[|lines|..];
      var after := RunFrom(b + Appended(lines[1..]), session, rest, outcomes[|lines|..]);
      assert RunFrom(buffer, session, all, outcomes)
             == Trace(after.buffer, after.session, [] + after.executed, after.exited);
      assert [] + after.executed == after.executed;
      AppendAssoc(buffer, t, [' ']);
      AppendAssoc(buffer, t + " ", Appended(lines[1..]));
    }
  }

  /**
   * A statement typed over several lines and ended by a lone `/` is sent
   * once, as the whole buffer trimmed, routed with the session's connection;
   * the buffer is then empty. With nothing buffered the `/` sends nothing.
   */
  lemma SlashSendsStatement(buffer: string, session: Session, lines: seq<string>,
                            slash: string, outcomes: seq<bool>)
    requires |outcomes| == |lines| + 1
    requires forall k :: 0 <= k < |lines| ==> PlainSql(lines[k])
    requires Trim(slash) == "/"
    ensures var text := buffer + Appended(lines);
            RunFrom(buffer, session, lines + [slash], outcomes)
            == if text == [] then Trace([], session, [], false)
               else Trace([], session, [ExecuteSql(Trim(text), session.con.Some?)], false)
  {
    RunSplit(buffer, session, lines, [slash], outcomes);
    var text := buffer + Appended(lines);
    var o := outcomes[|lines|..];
    SlashIsSql(Trim(slash));
    var r := Step(text, session, slash, o[0]);
    assert r.command == Sql && (r.buffer, r.action) == Accumulate(text, "/");
    RunFromCons(text, session, [slash], o);
    assert RunFrom(r.buffer, session, [slash][1..], o[1..]) == Trace(r.buffer, session, [], false);
  }

  /** The terminator `/` is not a command word. */
  lemma SlashIsSql(line: string)
    requires line == "/"
    ensures Classify(line) == Sql
  {
    assert ToUpper(line)[0] == '/' && ToUpper("?")[0] == '?';
  }

  /**
   * A statement typed over several lines and ended by a line `X;` is sent
   * once, as the buffer, then X without its `;` trimmed, then a space, all
   * trimmed; the buffer is then empty.
   */
  lemma SemicolonSendsStatement(buffer: string, session: Session, lines: seq<string>,
                                last: string, outcomes: seq<bool>)
    requires |outcomes| == |lines| + 1
    requires forall k :: 0 <= k < |lines| ==> PlainSql(lines[k])
    requires var l := Trim(last); EndsWith(l, ";") && Classify(l) == Sql
    ensures var l := Trim(last);
            var text := buffer + Appended(lines) + Trim(l[..|l| - 1]) + " ";
            RunFrom(buffer, session, lines + [last], outcomes)
            == Trace([], session, [ExecuteSql(Trim(text), session.con.Some?)], false)
  {
    RunSplit(buffer, session, lines, [last], outcomes);
    var l := Trim(last);
    var b := buffer + Appended(lines);
    var o := outcomes[|lines|..];
    assert l != "/" by { assert l[|l| - 1] == l[|l| - 1..][0] == ';'; }
    RunFromCons(b, session, [last], o);
    assert RunFrom([], session, [last][1..], o[1..]) == RunFrom([], session, [], []);
  }

  /**
   * On an empty buffer, the accumulator sends the same statement for `X;` as
   * for `X` followed by a lone `/`: the line without its `;`, trimmed. This is
   * about SQL text only: when `X` is a command word (`exit`, say) the line `X`
   * is that command, while `X;` is SQL (see ExitWithSemicolonIsSql).
   */
  lemma SemicolonSameAsSlash(x: string)
    requires var t := Trim(x); t != [] && t != "/" && !EndsWith(t, ";")
    ensures Accumulate([], x + ";") == ([], Dispatch(Trim(x)))
    ensures var (b, a) := Accumulate([], Trim(x));
            a == NoDispatch && Accumulate(b, "/") == ([], Dispatch(Trim(x)))
  {
    var t := Trim(x);
    var line := x + ";";
    assert line != "/" by { assert line[|line| - 1] == ';'; }
    assert EndsWith(line, ";");
    assert line[..|line| - 1] == x;
    TrimOfPadded([], t, " ");
    assert [] + t + " " == t + " ";
  }

  /** A command line leaves a half-built statement alone and sends nothing. */
  lemma CommandKeepsBuffer(buffer: string, session: Session, raw: string, connectOk: bool)
    requires Classify(Trim(raw)) != Sql
    ensures var r := Step(buffer, session, raw, connectOk);
            r.buffer == buffer && r.action == NoDispatch
  {
  }

  /** Commands are recognised whatever the case of their letters. */
  lemma ClassifyIgnoresCase(a: string, b: string)
    requires ToUpper(a) == ToUpper(b)
    ensures Classify(a) == Classify(b)
  {
    LowerAgreesWithUpper(a, b);
  }

  /**
   * A line ending in `;` is SQL text unless it starts with `conn `: no other
   * command word ends in `;`, so `exit;` is sent to the database.
   */
  lemma TerminatedLineIsSql(line: string)
    requires EndsWith(line, ";") && !StartsWith(ToLower(line), "conn ")
    ensures Classify(line) == Sql
  {
    var n := |line| - 1;
    assert line[n] == line[n..][0] == ';';
    assert ToUpper(line)[n] == ';';
  }

  lemma ExitWithSemicolonIsSql(line: string)
    requires line == "exit;"
    ensures Classify(line) == Sql
  {
    assert ToLower(line)[0] == 'e';
    TerminatedLineIsSql(line);
  }

  // ---- the loop as the program runs it ---------------------------------------

  /** The shell's mutable state: the statement being built and the session. */
  class Shell {
    var buffer: string
    var session: Session

    /** Startup: an empty buffer and a first connection attempt with the defaults. */
    constructor (startupOk: bool)
      ensures buffer == [] && session == Startup(startupOk)
    {
      buffer := [];
      session := Startup(startupOk);
    }

    /** One pass of the loop body, testing the commands in the program's order. */
    method HandleLine(raw: string, connectOk: bool) returns (command: Command, action: Action)
      modifies this
      ensures StepResult(buffer, session, command, action) == Step(old(buffer), old(session), raw, connectOk)
    {
      var line := Trim(raw);
      action := NoDispatch;
      if line == [] {
        return Skip, action;
      }
      if EqualsIgnoreCase(line, "exit") || EqualsIgnoreCase(line, "quit") {
        session := CloseConnection(session);
        return Exit, action;
      }
      if EqualsIgnoreCase(line, "cls") || EqualsIgnoreCase(line, "clear") {
        return ClearScreen, action;
      }
      if EqualsIgnoreCase(line, "conn?") || EqualsIgnoreCase(line, "status") {
        return ShowStatus, action;
      }
      if StartsWith(ToLower(line), "conn ") {
        session := HandleConn(session, line, connectOk);
        return Reconnect, action;
      }
      if EqualsIgnoreCase(line, "help") || EqualsIgnoreCase(line, "?") {
        return Help, action;
      }
      command := Sql;
      if line == "/" {
        if |buffer| > 0 {
          action := Dispatch(Trim(buffer));
          buffer := [];
        }
        return;
      }
      var endsWithSemi := EndsWith(line, ";");
      if endsWithSemi {
        line := Trim(line[..|line| - 1]);
      }
      buffer := buffer + line + " ";
      if endsWithSemi {
        action := Dispatch(Trim(buffer));
        buffer := [];
      }
    }

    /**
     * The loop over the given input lines until exit. Returns the routing of
     * every statement sent, in order, and whether the loop ended by exit.
     */
    method Run(lines: seq<string>, outcomes: seq<bool>) returns (executed: seq<Execution>, exited: bool)
      requires |outcomes| == |lines|
      modifies this
      ensures Trace(buffer, session, executed, exited) == RunFrom(old(buffer), old(session), lines, outcomes)
    {
      ghost var whole := RunFrom(buffer, session, lines, outcomes);
      executed := [];
      exited := false;
      var i := 0;
      while i < |lines| && !exited
        invariant 0 <= i <= |lines|
        invariant exited ==> whole == Trace(buffer, session, executed, true)
        invariant !exited ==>
          var rest := RunFrom(buffer, session, lines[i..], outcomes[i..]);
          whole == Trace(rest.buffer, rest.session, executed + rest.executed, rest.exited)
      {
        ghost var before := RunFrom(buffer, session, lines[i..], outcomes[i..]);
        ghost var b0, s0 := buffer, session;
        var command, action := HandleLine(lines[i], outcomes[i]);
        ghost var r := StepResult(buffer, session, command, action);
        assert lines[i..][0] == lines[i] && outcomes[i..][0] == outcomes[i];
        assert lines[i..][1..] == lines[i + 1..] && outcomes[i..][1..] == outcomes[i + 1..];
        RunFromCons(b0, s0, lines[i..], outcomes[i..]);
        if command == Exit {
          exited := true;
        } else {
          ghost var rest := RunFrom(buffer, session, lines[i + 1..], outcomes[i + 1..]);
          assert before == Trace(rest.buffer, rest.session, Sent(r) + rest.executed, rest.exited);
          if action.Dispatch? {
            var e := ExecuteSql(action.text, session.con.Some?);
            assert Sent(r) == [e];
            AppendAssoc(executed, [e], rest.executed);
            executed := executed + [e];
          } else {
            assert Sent(r) == [];
            assert [] + rest.executed == rest.executed;
          }
        }
        i := i + 1;
      }
      if !exited {
        assert lines[i..] == [];
      }
    }
  }
}
