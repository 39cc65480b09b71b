/**
 * executeSQL and describeTable: what a complete statement leads to. The driver
 * calls themselves are not modelled; the result names the call the shell makes
 * (a metadata lookup, a query or an update) or the message it prints instead.
 */
module Router {
  import opened JavaString

  datatype Execution =
    | Ignored                  // empty statement: nothing happens
    | NotConnected             // "Not connected" is printed; the driver is not called
    | DescribeUsage            // "Usage: DESC tableName"
    | Describe(table: string)  // column metadata of this table is looked up
    | Query(sql: string)       // executeQuery; the rows are rendered as a table
    | Update(sql: string)      // executeUpdate; the affected row count is printed
  {
    /** The statement reaches the driver. */
    predicate CallsDriver() { !Ignored? && !NotConnected? }
  }

  /** The prefixes that send a statement down the query branch. */
  predicate IsQueryPrefix(upper: string) {
    StartsWith(upper, "SELECT") || StartsWith(upper, "SHOW") || StartsWith(upper, "WITH")
    || StartsWith(upper, "DESCRIBE") || StartsWith(upper, "DESC")
  }

  /**
   * executeSQL. An empty statement does nothing and a missing connection is
   * reported without calling the driver. Otherwise the upper-cased text is
   * sent to describe when it starts with DESC (which covers DESCRIBE), to the
   * query path when it starts with SELECT, SHOW or WITH, and to the update
   * path in every other case.
   */
  function ExecuteSql(sql: string, connected: bool): (e: Execution)
    ensures e == Ignored <==> sql == []
    ensures e == NotConnected <==> sql != [] && !connected
    ensures e.CallsDriver() <==> sql != [] && connected
    ensures (e.Describe? || e.DescribeUsage?)
            <==> e.CallsDriver() && StartsWith(ToUpper(Trim(sql)), "DESC")
    ensures e.Query? <==> e.CallsDriver() && !StartsWith(ToUpper(Trim(sql)), "DESC")
                          && var upper := ToUpper(Trim(sql));
                          StartsWith(upper, "SELECT") || StartsWith(upper, "SHOW")
                          || StartsWith(upper, "WITH")
    ensures e.Update? <==> e.CallsDriver() && !IsQueryPrefix(ToUpper(Trim(sql)))
    ensures e.Query? || e.Update? ==> e.sql == sql
    ensures e.Describe? || e.DescribeUsage? ==> e == DescribeTable(sql)
  {
    if sql == [] then Ignored
    else if !connected then NotConnected
    else
      var upper := ToUpper(Trim(sql));
      DescribeIsDesc(upper);
      if IsQueryPrefix(upper) then
        if StartsWith(upper, "DESC") then DescribeTable(sql)
        else Query(sql)
      else Update(sql)
  }

  /** DESC is a prefix of DESCRIBE, so the DESCRIBE test adds no case of its own. */
  lemma DescribeIsDesc(upper: string)
    ensures StartsWith(upper, "DESCRIBE") ==> StartsWith(upper, "DESC")
  {
    if StartsWith(upper, "DESCRIBE") {
      assert upper[..4] == upper[..8][..4];
    }
  }

  /**
   * describeTable: the table name is the second whitespace-separated token,
   * upper-cased; fewer than two tokens is a usage error.
   */
  function DescribeTable(sql: string): (e: Execution)
    ensures e.Describe? || e.DescribeUsage?
  {
    var parts := SplitRegexSpace(Trim(sql));
    if |parts| < 2 then DescribeUsage else Describe(ToUpper(parts[1]))
  }

  /**
   * A statement (already trimmed, as the shell passes it) is a usage error
   * exactly when it holds no whitespace, that is, when it is one token.
   */
  lemma DescribeUsageIff(sql: string)
    requires IsTrimmed(sql)
    ensures DescribeTable(sql) == DescribeUsage <==> !HasRegexSpace(sql)
  {
    TrimTrimmed(sql);
    if HasRegexSpace(sql) {
      assert sql != [];
      TrimmedEndsAreNotRegexSpace(sql);
      FieldsOfTwoTokens(sql);
    }
  }

  /**
   * The table named is the second token, upper-cased, whatever tokens follow
   * it: `keyword`, some whitespace, `name`, and a `tail` that is empty or
   * starts with whitespace.
   */
  lemma DescribeNamesSecondToken(keyword: string, sep: string, name: string, tail: string)
    requires !HasRegexSpace(keyword) && !HasRegexSpace(name) && name != []
    requires sep != [] && forall k :: 0 <= k < |sep| ==> IsRegexSpace(sep[k])
    requires tail == [] || IsRegexSpace(tail[0])
    requires IsTrimmed(keyword + sep + name + tail)
    ensures DescribeTable(keyword + sep + name + tail) == Describe(ToUpper(name))
  {
    var sql := keyword + sep + name + tail;
    TrimTrimmed(sql);
    assert IsRegexSpace(sql[|keyword|]);
    assert sql == keyword + sep + (name + tail);
    FieldsAfterSeparator(keyword, sep, name + tail);
    FieldsHead(name, tail);
    var f := RegexSpaceFields(sql);
    assert f[1] == name;
  }

  /** A trimmed string starts and ends with characters outside `\s`. */
  lemma TrimmedEndsAreNotRegexSpace(s: string)
    requires IsTrimmed(s) && s != []
    ensures !IsRegexSpace(s[0]) && !IsRegexSpace(s[|s| - 1])
  {
  }

  /** The first field of a string that starts with a non-space is not empty. */
  lemma FieldsStartNonEmpty(s: string)
    requires s != [] && !IsRegexSpace(s[0])
    ensures RegexSpaceFields(s)[0] != []
  {
  }

  /**
   * A string with inner whitespace and none at either end has at least two
   * fields, the second one not empty.
   */
  lemma {:induction false} FieldsOfTwoTokens(s: string)
    requires HasRegexSpace(s) && s != [] && !IsRegexSpace(s[0]) && !IsRegexSpace(s[|s| - 1])
    ensures |RegexSpaceFields(s)| >= 2 && RegexSpaceFields(s)[1] != []
    decreases |s|
  {
    var t := s[1..];
    assert HasRegexSpace(t) by {
      var k :| 0 <= k < |s| && IsRegexSpace(s[k]);
      assert t[k - 1] == s[k];
    }
    if IsRegexSpace(t[0]) {
      var u := SkipRegexSpace(t);
      assert u != [] by { assert t[|t| - 1] == s[|s| - 1]; }
      FieldsStartNonEmpty(u);
    } else {
      FieldsOfTwoTokens(t);
    }
  }

  /** A token, whitespace, and the rest: the token is the first field. */
  lemma {:induction false} FieldsAfterSeparator(a: string, sep: string, b: string)
    requires !HasRegexSpace(a)
    requires sep != [] && forall k :: 0 <= k < |sep| ==> IsRegexSpace(sep[k])
    requires b == [] || !IsRegexSpace(b[0])
    ensures RegexSpaceFields(a + sep + b) == [a] + RegexSpaceFields(b)
    decreases |a|
  {
    var s := a + sep + b;
    if a == [] {
      assert s == sep + b;
      SkipSeparator(sep, b);
    } else {
      var t := a[1..];
      assert s[0] == a[0] && !IsRegexSpace(a[0]);
      assert s[1..] == t + sep + b;
      assert !HasRegexSpace(t) by {
        forall k | 0 <= k < |t| ensures !IsRegexSpace(t[k]) {
          assert t[k] == a[k + 1];
        }
      }
      FieldsAfterSeparator(t, sep, b);
      var rest := RegexSpaceFields(s[1..]);
      assert rest[0] == t && rest[1..] == RegexSpaceFields(b);
      assert [a[0]] + t == a;
    }
  }

  lemma {:induction false} SkipSeparator(sep: string, b: string)
    requires forall k :: 0 <= k < |sep| ==> IsRegexSpace(sep[k])
    requires b == [] || !IsRegexSpace(b[0])
    ensures SkipRegexSpace(sep + b) == b
    decreases |sep|
  {
    if sep != [] {
      assert (sep + b)[1..] == sep[1..] + b;
      SkipSeparator(sep[1..], b);
    } else {
      assert sep + b == b;
    }
  }

  /** A token followed by nothing or by whitespace is the first field. */
  lemma {:induction false} FieldsHead(a: string, b: string)
    requires !HasRegexSpace(a)
    requires b == [] || IsRegexSpace(b[0])
    ensures RegexSpaceFields(a + b)[0] == a
    decreases |a|
  {
    if a != [] {
      assert (a + b)[1..] == a[1..] + b;
      assert !HasRegexSpace(a[1..]) by {
        forall k | 0 <= k < |a[1..]| ensures !IsRegexSpace(a[1..][k]) {
          assert a[1..][k] == a[k + 1];
        }
      }
      FieldsHead(a[1..], b);
      assert [a[0]] + a[1..] == a;
    } else {
      assert a + b == b;
    }
  }
}
