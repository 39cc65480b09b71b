/**
 * The single database session of the shell: the current connection handle and
 * the url, user and password last used to open one, together with the parser
 * of `conn user/password@host:port:sid` lines.
 *
 * The driver itself is not modelled. A connection handle is an identifier, the
 * outcome of an attempt to open one is a parameter, and `closed` records every
 * handle the shell has closed, so that "the previous connection is closed" and
 * "at most one connection is open" can be stated.
 */
module Session {
  import opened Wrappers
  import opened JavaString

  type ConnId = nat

  datatype Session = Session(
    con: Option<ConnId>,   // the open connection, or None for Java's null
    nextId: ConnId,        // identifier the next opened connection receives
    closed: set<ConnId>,   // connections the shell has closed
    url: string,
    user: string,
    pass: string)

  /** Connection settings used at startup. */
  const DefaultUrl: string := "jdbc:oracle:thin:@localhost:1521:orcl"
  const DefaultUser: string := "system"
  const DefaultPass: string := "nikhil"

  /** The driver's URL scheme that `conn` puts in front of `host:port:sid`. */
  const UrlPrefix: string := "jdbc:oracle:thin:@"

  /**
   * At most one connection is open: every connection ever opened, except the
   * current one, has been closed, and the current one has not; only opened
   * connections are ever closed.
   */
  predicate Valid(s: Session) {
    && (s.con.Some? ==> s.con.value < s.nextId && s.con.value !in s.closed)
    && (forall id :: 0 <= id < s.nextId && s.con != Some(id) ==> id in s.closed)
    && (forall id :: id in s.closed ==> id < s.nextId)
  }

  /** The session after the startup attempt to connect with the default settings. */
  function Startup(connectOk: bool): (s: Session)
    ensures Valid(s)
    ensures s.con.Some? <==> connectOk
    ensures s.url == DefaultUrl && s.user == DefaultUser && s.pass == DefaultPass
  {
    Session(if connectOk then Some(0) else None, if connectOk then 1 else 0, {},
            DefaultUrl, DefaultUser, DefaultPass)
  }

  /** closeConnection: closes the current connection, if any; nothing else changes. */
  function CloseConnection(s: Session): (r: Session)
    ensures r.con == None
    ensures s.con.Some? ==> r.closed == s.closed + {s.con.value}
    ensures s.con.None? ==> r.closed == s.closed
    ensures r.nextId == s.nextId && r.url == s.url && r.user == s.user && r.pass == s.pass
    ensures Valid(s) ==> Valid(r)
  {
    match s.con
    case None => s
    case Some(id) => s.(con := None, closed := s.closed + {id})
  }

  datatype Credentials = Credentials(user: string, password: string, url: string)

  /**
   * The spec of a `conn` line, `user/password@rest`, split the way
   * String.split does it: exactly two pieces around `@`, and exactly two
   * around `/` in the left one.
   */
  function ParseSpec(spec: string): Option<Credentials> {
    var atSplit := Split(spec, '@');
    if |atSplit| != 2 then None
    else
      var userPass := Split(atSplit[0], '/');
      if |userPass| != 2 then None
      else Some(Credentials(userPass[0], userPass[1], UrlPrefix + atSplit[1]))
  }

  /**
   * Every well-formed spec is accepted: user, password and the rest of the
   * line come back as they were written, the rest behind the URL scheme. The
   * user may be empty; the password and the rest may not. Extra `/` after the
   * password and extra `@` at the end are ignored, because String.split drops
   * the empty pieces they make.
   */
  lemma ParseSpecAccepts(user: string, password: string, rest: string, j: nat, k: nat)
    requires '/' !in user && '@' !in user
    requires '/' !in password && '@' !in password && password != []
    requires '@' !in rest && rest != []
    ensures ParseSpec(user + "/" + password + Repeat('/', j) + "@" + rest + Repeat('@', k))
            == Some(Credentials(user, password, UrlPrefix + rest))
  {
    var left := user + "/" + password + Repeat('/', j);
    var spec := user + "/" + password + Repeat('/', j) + "@" + rest + Repeat('@', k);
    assert '@' !in left by {
      assert forall i :: 0 <= i < |left| ==> left[i] == '/' || left[i] in user || left[i] in password;
    }
    SplitPadded(left, '@', rest, k);
    assert spec == left + ['@'] + rest + Repeat('@', k);
    SplitPadded(user, '/', password, j);
    assert left == user + ['/'] + password + Repeat('/', j);
  }

  /**
   * Conversely, whatever is accepted has exactly that shape, so the two
   * lemmas together characterise the accepted specs.
   */
  lemma ParseSpecShape(spec: string)
    requires ParseSpec(spec).Some?
    ensures var c := ParseSpec(spec).value;
      && '/' !in c.user && '@' !in c.user
      && '/' !in c.password && '@' !in c.password && c.password != []
      && StartsWith(c.url, UrlPrefix)
      && var rest := c.url[|UrlPrefix|..];
      && '@' !in rest && rest != []
      && exists j: nat, k: nat ::
           spec == c.user + "/" + c.password + Repeat('/', j) + "@" + rest + Repeat('@', k)
  {
    var atSplit := Split(spec, '@');
    SplitTwo(spec, '@');
    var k: nat :| spec == atSplit[0] + ['@'] + atSplit[1] + Repeat('@', k);
    var userPass := Split(atSplit[0], '/');
    SplitTwo(atSplit[0], '/');
    var j: nat :| atSplit[0] == userPass[0] + ['/'] + userPass[1] + Repeat('/', j);
    assert '@' !in userPass[0] && '@' !in userPass[1] by {
      assert atSplit[0] == userPass[0] + (['/'] + userPass[1] + Repeat('/', j));
      assert atSplit[0] == (userPass[0] + ['/'] + userPass[1]) + Repeat('/', j);
    }
    var c := ParseSpec(spec).value;
    assert c.url[|UrlPrefix|..] == atSplit[1];
    assert spec == c.user + "/" + c.password + Repeat('/', j) + "@" + atSplit[1] + Repeat('@', k);
  }

  /** An `@` with nothing after it leaves a single piece, so the spec is refused. */
  lemma ParseSpecRejectsEmptyRest(left: string, k: nat)
    requires '@' !in left
    ensures ParseSpec(left + Repeat('@', k + 1)) == None
  {
    var spec := left + Repeat('@', k + 1);
    assert spec[|left|] == '@';
    FieldsRepeat(left, '@', k + 1);
    if left == [] {
      DropEmpties([], k + 2);
      assert [left] + seq(k + 1, _ => []) == [] + seq(k + 2, _ => []);
    } else {
      DropEmpties([left], k + 1);
    }
  }

  /** A left part without `/` is one piece, so the spec is refused. */
  lemma ParseSpecRejectsMissingSlash(user: string, rest: string)
    requires '/' !in user && '@' !in user
    requires '@' !in rest && rest != []
    ensures ParseSpec(user + "@" + rest) == None
  {
    SplitPadded(user, '@', rest, 0);
    assert user + "@" + rest == user + ['@'] + rest + Repeat('@', 0);
  }

  /** Two non-empty pieces around a second `/` make three pieces, so the spec is refused. */
  lemma ParseSpecRejectsSecondSlash(user: string, password: string, extra: string, rest: string)
    requires '/' !in user && '@' !in user
    requires '/' !in password && '@' !in password
    requires '/' !in extra && '@' !in extra && extra != []
    requires '@' !in rest && rest != []
    ensures ParseSpec(user + "/" + password + "/" + extra + "@" + rest) == None
  {
    var inner := password + ['/'] + extra;
    var left := user + ['/'] + inner;
    assert '@' !in left;
    SplitPadded(left, '@', rest, 0);
    assert user + "/" + password + "/" + extra + "@" + rest == left + ['@'] + rest + Repeat('@', 0);
    FieldsCons(user, '/', inner);
    FieldsCons(password, '/', extra);
    FieldsNone(extra, '/');
    assert Fields(left, '/') == [user, password, extra];
    assert left[|user|] == '/';
    DropEmpties([user, password, extra], 0);
    assert [user, password, extra] + seq(0, _ => []) == [user, password, extra];
  }

  /**
   * An empty password is refused even with exactly one `/` and one `@`:
   * String.split drops the empty piece after the `/`, leaving one piece.
   */
  lemma ParseSpecRejectsEmptyPassword(user: string, j: nat, rest: string)
    requires '/' !in user && '@' !in user
    requires '@' !in rest && rest != []
    ensures ParseSpec(user + Repeat('/', j + 1) + "@" + rest) == None
  {
    var spec := user + Repeat('/', j + 1) + "@" + rest;
    var left := user + Repeat('/', j + 1);
    assert Split(spec, '@') == [left, rest] by {
      assert '@' !in left by {
        assert forall i :: 0 <= i < |left| ==> left[i] == '/' || left[i] in user;
      }
      SplitPadded(left, '@', rest, 0);
      assert spec == left + ['@'] + rest + Repeat('@', 0);
    }
    SplitTrailingOnly(user, '/', j);
  }

  /** A piece followed only by separators splits into fewer than two pieces. */
  lemma SplitTrailingOnly(a: string, d: char, j: nat)
    requires d !in a
    ensures |Split(a + Repeat(d, j + 1), d)| < 2
  {
    var s := a + Repeat(d, j + 1);
    assert s[|a|] == d;
    FieldsRepeat(a, d, j + 1);
    if a == [] {
      DropEmpties([], j + 2);
      assert [a] + seq(j + 1, _ => []) == [] + seq(j + 2, _ => []);
    } else {
      DropEmpties([a], j + 1);
    }
  }

  /** The pieces of `a`, then `n` separators: `a` and `n` empty pieces. */
  lemma {:induction false} FieldsRepeat(a: string, d: char, n: nat)
    requires d !in a
    ensures Fields(a + Repeat(d, n), d) == [a] + seq(n, _ => [])
    decreases n
  {
    if n == 0 {
      FieldsNone(a, d);
      assert a + Repeat(d, 0) == a;
    } else {
      assert a + Repeat(d, n) == a + [d] + Repeat(d, n - 1);
      FieldsCons(a, d, Repeat(d, n - 1));
      FieldsRepeat([], d, n - 1);
      assert [] + Repeat(d, n - 1) == Repeat(d, n - 1);
    }
  }

  /** Dropping trailing empty pieces after pieces that end in a non-empty one. */
  lemma {:induction false} DropEmpties(p: seq<string>, n: nat)
    requires p == [] || p[|p| - 1] != []
    ensures DropTrailingEmpty(p + seq(n, _ => [])) == p
    decreases n
  {
    var q := p + seq(n, _ => []);
    if n > 0 {
      assert q[..|q| - 1] == p + seq(n - 1, _ => []);
      DropEmpties(p, n - 1);
    } else {
      assert q == p;
    }
  }

  /** Split of two separated pieces followed by separators only. */
  lemma SplitPadded(a: string, d: char, b: string, k: nat)
    requires d !in a && d !in b && b != []
    ensures Split(a + [d] + b + Repeat(d, k), d) == [a, b]
  {
    var s := a + [d] + b + Repeat(d, k);
    assert s[|a|] == d;
    FieldsCons(a, d, b + Repeat(d, k));
    assert s == a + [d] + (b + Repeat(d, k));
    FieldsRepeat(b, d, k);
    DropEmpties([a, b], k);
    assert [a] + ([b] + seq(k, _ => [])) == [a, b] + seq(k, _ => []);
  }

  /** A trailing `@` is dropped by String.split, so `u/p@h@` is accepted. */
  lemma ParseSpecTrailingAtExample(spec: string)
    requires spec == "u/p@h@"
    ensures ParseSpec(spec) == Some(Credentials("u", "p", UrlPrefix + "h"))
  {
    assert spec == "u" + "/" + "p" + Repeat('/', 0) + "@" + "h" + Repeat('@', 1) by {
      assert Repeat('/', 0) == [] && Repeat('@', 1) == "@";
    }
    ParseSpecAccepts("u", "p", "h", 0, 1);
  }

  /** A `/` after the password is dropped by String.split, so `u/p/@h` is accepted. */
  lemma ParseSpecTrailingSlashExample(spec: string)
    requires spec == "u/p/@h"
    ensures ParseSpec(spec) == Some(Credentials("u", "p", UrlPrefix + "h"))
  {
    assert spec == "u" + "/" + "p" + Repeat('/', 1) + "@" + "h" + Repeat('@', 0) by {
      assert Repeat('/', 1) == "/" && Repeat('@', 0) == [];
    }
    ParseSpecAccepts("u", "p", "h", 1, 0);
  }

  /** Nothing after `@` is refused: `u/p@`. */
  lemma ParseSpecEmptyHostExample(spec: string)
    requires spec == "u/p@"
    ensures ParseSpec(spec) == None
  {
    ParseSpecRejectsEmptyRest("u/p", 0);
    assert spec == "u/p" + Repeat('@', 1);
  }

  /** A `/` with no password after it is refused: `u/@h`. */
  lemma ParseSpecEmptyPasswordExample(spec: string)
    requires spec == "u/@h"
    ensures ParseSpec(spec) == None
  {
    assert spec == "u" + Repeat('/', 1) + "@" + "h" by {
      assert Repeat('/', 1) == "/";
    }
    ParseSpecRejectsEmptyPassword("u", 0, "h");
  }

  /** A spec without `/` is refused: `u@h`. */
  lemma ParseSpecNoPasswordExample(spec: string)
    requires spec == "u@h"
    ensures ParseSpec(spec) == None
  {
    ParseSpecRejectsMissingSlash("u", "h");
    assert spec == "u" + "@" + "h";
  }

  /**
   * handleConn: the current connection is closed first, whatever follows; the
   * spec is the trimmed text after the five characters `conn `. Only a parsed
   * spec together with a successful attempt to open a connection replaces the
   * stored url, user and password; every failure leaves the session
   * disconnected with them unchanged.
   */
  function HandleConn(s: Session, line: string, connectOk: bool): (r: Session)
    requires |line| >= 5
    ensures Valid(s) ==> Valid(r)
    ensures s.con.Some? ==> s.con.value in r.closed
    ensures s.closed <= r.closed
    ensures r.con.Some? <==> ParseSpec(Trim(line[5..])).Some? && connectOk
    ensures r.con.Some? ==> r.con.value == s.nextId && r.nextId == s.nextId + 1
    ensures r.con.Some? ==> var c := ParseSpec(Trim(line[5..])).value;
                            r.url == c.url && r.user == c.user && r.pass == c.password
    ensures r.con.None? ==> r.url == s.url && r.user == s.user && r.pass == s.pass
  {
    var closedSession := CloseConnection(s);
    var spec := Trim(line[5..]);
    match ParseSpec(spec)
    case None => closedSession
    case Some(c) =>
      if connectOk then Opened(closedSession, c) else closedSession
  }

  /** A disconnected session after a successful connect with `c`: the new handle is fresh. */
  function Opened(s: Session, c: Credentials): (r: Session)
    requires s.con.None?
    ensures Valid(s) ==> Valid(r)
    ensures r.con == Some(s.nextId) && r.nextId == s.nextId + 1 && r.closed == s.closed
    ensures r.url == c.url && r.user == c.user && r.pass == c.password
  {
    s.(con := Some(s.nextId), nextId := s.nextId + 1, url := c.url, user := c.user, pass := c.password)
  }
}
