/** The ALTER TABLE detector of canal/sync.go: the regular expression

      (?i)^ALTER\sTABLE\s.*?`{0,1}(.*?)`{0,1}\.{0,1}`{0,1}([^`\.]+?)`{0,1}\s.*

    applied with Go's leftmost-first submatch semantics. AlterMatches says
    when the pattern matches at all; DetectAlterTable is a deterministic parser
    that picks the two captures the way a backtracking matcher would. */
module AlterTable {
  import opened Binlog

  /** Group 1 (the schema, possibly empty) and group 2 (the table). */
  datatype Capture = Capture(schema: string, table: string)

  /** `\s` in Go's regular expressions: tab, newline, form feed, carriage return, space. */
  predicate IsSpace(c: char) {
    c == ' ' || c == '\t' || c == '\n' || c == '\r' || c == '\U{000C}'
  }

  /** `[^`\.]`: any character except a backtick or a dot (newline included). */
  predicate IsTableChar(c: char) {
    c != '`' && c != '.'
  }

  /** Case-insensitive equality with a pattern character. The letters of
      ALTER and TABLE have no case variants outside ASCII. */
  predicate FoldsTo(c: char, k: char) {
    c == k || ('A' <= k <= 'Z' && c as int == k as int + 32)
  }

  predicate KeywordAt(s: string, i: nat, k: string) {
    i + |k| <= |s| && forall j :: 0 <= j < |k| ==> FoldsTo(s[i + j], k[j])
  }

  /** `^ALTER\sTABLE\s`: the fixed twelve-character head of a match. */
  predicate AlterPrefix(sql: string) {
    |sql| >= 12 && KeywordAt(sql, 0, "ALTER") && IsSpace(sql[5]) &&
    KeywordAt(sql, 6, "TABLE") && IsSpace(sql[11])
  }

  /** No newline in r[a..b]: what `.` may consume. */
  predicate LineFree(r: string, a: nat, b: nat) {
    a <= b <= |r| && forall i :: a <= i < b ==> r[i] != '\n'
  }

  /** r[a..b] is a non-empty run of `[^`\.]`. */
  predicate TableRun(r: string, a: nat, b: nat) {
    a < b <= |r| && forall i :: a <= i < b ==> IsTableChar(r[i])
  }

  /** "`{0,1}\s" matches at k (the trailing `.*` accepts anything). */
  predicate TailAt(r: string, k: nat) {
    k < |r| && (IsSpace(r[k]) || (r[k] == '`' && k + 1 < |r| && IsSpace(r[k + 1])))
  }

  /** After the head, the rest r matches with the table captured as r[j..k]:
      everything before j is consumed by the lazy `.*?` parts and the optional
      markers, none of which crosses a newline. */
  predicate MatchAt(r: string, j: nat, k: nat) {
    LineFree(r, 0, j) && TableRun(r, j, k) && TailAt(r, k)
  }

  /** The pattern matches sql. */
  ghost predicate AlterMatches(sql: string) {
    AlterPrefix(sql) && exists j: nat, k: nat :: MatchAt(sql[12..], j, k)
  }

  /** `([^`\.]+?)` then the tail, tried from start q with the capture r[q..e]
      growing one character at a time: the shortest table name that works. */
  function TableEnd(r: string, q: nat, e: nat): (end: Option<nat>)
    requires q <= e <= |r|
    requires forall i :: q <= i < e ==> IsTableChar(r[i])
    ensures end.Some? ==> e < end.value && TableRun(r, q, end.value) && TailAt(r, end.value)
    decreases |r| - e
  {
    if e == |r| || !IsTableChar(r[e]) then None
    else if TailAt(r, e + 1) then Some(e + 1)
    else TableEnd(r, q, e + 1)
  }

  /** A greedy optional character c after each position of qs, in order: the
      position past c when c is there, then the position itself. */
  function Optional(r: string, qs: seq<nat>, c: char): (out: seq<nat>)
    requires c != '\n'
    requires forall i :: 0 <= i < |qs| ==> LineFree(r, 0, qs[i])
    ensures forall i :: 0 <= i < |out| ==> LineFree(r, 0, out[i])
    ensures forall q :: q in qs ==> q in out
  {
    if qs == [] then []
    else
      var q := qs[0];
      assert LineFree(r, 0, q);
      assert q < |r| && r[q] == c ==> LineFree(r, 0, q + 1);
      var here := if q < |r| && r[q] == c then [q + 1, q] else [q];
      var rest := Optional(r, qs[1..], c);
      assert forall x :: x in qs ==> x == q || x in qs[1..];
      here + rest
  }

  /** "`{0,1}\.{0,1}`{0,1}" after the schema capture ends at e: the positions
      where the table capture may start, in the order the matcher tries them. */
  function MarkerStarts(r: string, e: nat): (starts: seq<nat>)
    requires LineFree(r, 0, e)
    ensures forall i :: 0 <= i < |starts| ==> LineFree(r, 0, starts[i])
    ensures e in starts
  {
    Optional(r, Optional(r, Optional(r, [e], '`'), '.'), '`')
  }

  /** The first start in starts from which a table name and the tail match. */
  function FirstTable(r: string, starts: seq<nat>): (res: Option<(nat, nat)>)
    requires forall i :: 0 <= i < |starts| ==> LineFree(r, 0, starts[i])
    ensures res.Some? ==> res.value.0 in starts && MatchAt(r, res.value.0, res.value.1)
  {
    if starts == [] then None
    else
      assert LineFree(r, 0, starts[0]);
      match TableEnd(r, starts[0], starts[0])
      case Some(k) => Some((starts[0], k))
      case None => FirstTable(r, starts[1..])
  }

  /** Where the two groups lie in the rest of the statement. */
  datatype Span = Span(schemaStart: nat, schemaEnd: nat, tableStart: nat, tableEnd: nat)

  /** The lazy `(.*?)` starting at p with the capture r[p..e]: the shortest
      schema after which the markers, a table name and the tail match. */
  function SchemaFrom(r: string, p: nat, e: nat): (res: Option<Span>)
    requires p <= e && LineFree(r, 0, e)
    ensures res.Some? ==> var s := res.value;
      s.schemaStart == p && e <= s.schemaEnd <= s.tableStart && MatchAt(r, s.tableStart, s.tableEnd)
    decreases |r| - e
  {
    match FirstTable(r, MarkerStarts(r, e))
    case Some((ts, te)) =>
      // every start MarkerStarts lists lies at or after e
      assert e <= ts by { MarkerStartsAfter(r, e, ts); }
      Some(Span(p, e, ts, te))
    case None =>
      if e < |r| && r[e] != '\n' then SchemaFrom(r, p, e + 1) else None
  }

  lemma MarkerStartsAfter(r: string, e: nat, s: nat)
    requires LineFree(r, 0, e) && s in MarkerStarts(r, e)
    ensures e <= s
  {
    OptionalAfter(r, [e], '`', e);
    OptionalAfter(r, Optional(r, [e], '`'), '.', e);
    OptionalAfter(r, Optional(r, Optional(r, [e], '`'), '.'), '`', e);
  }

  lemma {:induction false} OptionalAfter(r: string, qs: seq<nat>, c: char, e: nat)
    requires c != '\n'
    requires forall i :: 0 <= i < |qs| ==> LineFree(r, 0, qs[i])
    requires forall q :: q in qs ==> e <= q
    ensures forall q :: q in Optional(r, qs, c) ==> e <= q
  {
    if qs != [] {
      assert forall x :: x in qs[1..] ==> x in qs;
      assert LineFree(r, 0, qs[0]);
      OptionalAfter(r, qs[1..], c, e);
      var q := qs[0];
      var here := if q < |r| && r[q] == c then [q + 1, q] else [q];
      assert Optional(r, qs, c) == here + Optional(r, qs[1..], c);
      assert q in qs && forall x :: x in here ==> q <= x;
    }
  }

  /** The whole rest after `^ALTER\sTABLE\s`. The leading lazy `.*?` stays
      empty: whenever some match exists, one exists with it empty, and that
      is the one tried first. Then "`{0,1}" takes a backtick when one is
      there, and gives it back only if nothing matches after it. */
  function Search(r: string): (res: Option<Span>)
    ensures res.Some? ==> var s := res.value;
      s.schemaStart <= s.schemaEnd <= s.tableStart && MatchAt(r, s.tableStart, s.tableEnd)
  {
    var quoted := if 0 < |r| && r[0] == '`' then SchemaFrom(r, 1, 1) else None;
    if quoted.Some? then quoted else SchemaFrom(r, 0, 0)
  }

  /** expAlterTable.FindSubmatch: the two captures, or None when the
      statement is not of this shape. */
  function DetectAlterTable(sql: string): (res: Option<Capture>)
    ensures res.Some? ==> AlterPrefix(sql)
    ensures res.Some? ==> |res.value.table| > 0
    ensures res.Some? ==>
              forall i :: 0 <= i < |res.value.table| ==> IsTableChar(res.value.table[i])
    ensures res.Some? ==> forall i :: 0 <= i < |res.value.schema| ==> res.value.schema[i] != '\n'
  {
    if !AlterPrefix(sql) then None
    else
      var r := sql[12..];
      match Search(r)
      case None => None
      case Some(s) => Some(Capture(r[s.schemaStart..s.schemaEnd], r[s.tableStart..s.tableEnd]))
  }

  lemma {:induction false} TableEndFinds(r: string, q: nat, e: nat, k: nat)
    requires q <= e < k && TableRun(r, q, k) && TailAt(r, k)
    ensures TableEnd(r, q, e).Some?
    decreases k - e
  {
    if !TailAt(r, e + 1) {
      TableEndFinds(r, q, e + 1, k);
    }
  }

  lemma {:induction false} FirstTableFinds(r: string, starts: seq<nat>, s: nat, k: nat)
    requires forall i :: 0 <= i < |starts| ==> LineFree(r, 0, starts[i])
    requires s in starts && MatchAt(r, s, k)
    ensures FirstTable(r, starts).Some?
  {
    if TableEnd(r, starts[0], starts[0]).None? {
      if starts[0] == s {
        TableEndFinds(r, s, s, k);
      } else {
        FirstTableFinds(r, starts[1..], s, k);
      }
    }
  }

  lemma {:induction false} SchemaFromFinds(r: string, p: nat, e: nat, j: nat, k: nat)
    requires p <= e <= j && LineFree(r, 0, e) && MatchAt(r, j, k)
    ensures SchemaFrom(r, p, e).Some?
    decreases j - e
  {
    if FirstTable(r, MarkerStarts(r, e)).None? {
      if e == j {
        FirstTableFinds(r, MarkerStarts(r, e), j, k);
      } else {
        SchemaFromFinds(r, p, e + 1, j, k);
      }
    }
  }

  /** The parser finds captures exactly when the pattern matches. */
  lemma DetectIffMatches(sql: string)
    ensures DetectAlterTable(sql).Some? <==> AlterMatches(sql)
  {
    if AlterMatches(sql) {
      var r := sql[12..];
      var j: nat, k: nat :| MatchAt(r, j, k);
      SchemaFromFinds(r, 0, 0, j, k);
    }
  }
}

module AlterTableShapes {
  import opened Binlog
  import opened AlterTable

  /** A name made of table characters and no whitespace. */
  predicate PlainName(n: string) {
    |n| > 0 && forall i :: 0 <= i < |n| ==> IsTableChar(n[i]) && !IsSpace(n[i])
  }

  lemma AlterPrefixExtends(head: string, tail: string)
    requires |head| == 12 && AlterPrefix(head)
    ensures AlterPrefix(head + tail) && (head + tail)[12..] == tail
  {
    var s := head + tail;
    assert forall i :: 0 <= i < 12 ==> s[i] == head[i];
    assert s[12..] == tail;
  }

  lemma {:induction false} TableEndNone(r: string, q: nat, e: nat, k: nat)
    requires q <= e <= k <= |r|
    requires forall i :: q <= i < k ==> IsTableChar(r[i])
    requires forall i :: e < i <= k ==> !TailAt(r, i)
    requires k == |r| || !IsTableChar(r[k])
    ensures TableEnd(r, q, e) == None
    decreases k - e
  {
    if e < k {
      TableEndNone(r, q, e + 1, k);
    }
  }

  lemma {:induction false} TableEndSome(r: string, q: nat, e: nat, k: nat)
    requires q <= e < k < |r|
    requires forall i :: q <= i < k ==> IsTableChar(r[i])
    requires forall i :: e < i < k ==> !TailAt(r, i)
    requires TailAt(r, k)
    ensures TableEnd(r, q, e) == Some(k)
    decreases k - e
  {
    if e + 1 < k {
      TableEndSome(r, q, e + 1, k);
    }
  }

  /** No marker character at x: the table capture can only start at x. */
  lemma MarkerStartsPlain(r: string, x: nat)
    requires LineFree(r, 0, x) && x < |r| && IsTableChar(r[x])
    ensures MarkerStarts(r, x) == [x]
  {
    assert Optional(r, [x], '`') == [x];
    assert Optional(r, [x], '.') == [x];
  }

  /** The schema capture is extended past a table character at which no
      table capture ends. */
  lemma SchemaFromStep(r: string, p: nat, e: nat)
    requires p <= e && LineFree(r, 0, e + 1) && IsTableChar(r[e]) && TableEnd(r, e, e) == None
    ensures SchemaFrom(r, p, e) == SchemaFrom(r, p, e + 1)
  {
    assert LineFree(r, 0, e) && r[e] != '\n';
    MarkerStartsPlain(r, e);
    assert FirstTable(r, [e]) == None;
  }

  lemma {:induction false} SchemaFromSkip(r: string, p: nat, e: nat, e2: nat)
    requires p <= e <= e2 && LineFree(r, 0, e2)
    requires forall x :: e <= x < e2 ==> IsTableChar(r[x]) && TableEnd(r, x, x) == None
    ensures SchemaFrom(r, p, e) == SchemaFrom(r, p, e2)
    decreases e2 - e
  {
    if e < e2 {
      SchemaFromStep(r, p, e);
      SchemaFromSkip(r, p, e + 1, e2);
    }
  }

  /** `ALTER TABLE orders ADD ...`: no schema captured, the table is the
      first word. */
  lemma DetectsPlainTable(head: string, t: string, rest: string)
    requires |head| == 12 && AlterPrefix(head) && PlainName(t)
    ensures DetectAlterTable(head + t + " " + rest) == Some(Capture("", t))
  {
    var r := t + " " + rest;
    assert head + t + " " + rest == head + r;
    AlterPrefixExtends(head, r);
    assert forall i :: 0 <= i < |t| ==> r[i] == t[i];
    assert r[|t|] == ' ';
    assert LineFree(r, 0, 0);
    MarkerStartsPlain(r, 0);
    TableEndSome(r, 0, 0, |t|);
    assert SchemaFrom(r, 0, 0) == Some(Span(0, 0, 0, |t|));
    assert r[0..0] == "" && r[0..|t|] == t;
  }

  /** "`.`" after the schema: the matcher first tries to take all three markers. */
  lemma QuotedMarkers(r: string, e: nat)
    requires LineFree(r, 0, e) && e + 2 < |r| && r[e] == '`' && r[e + 1] == '.' && r[e + 2] == '`'
    ensures MarkerStarts(r, e) == [e + 3, e + 2, e + 1, e + 1, e]
  {
    assert Optional(r, [e], '`') == [e + 1, e];
    assert Optional(r, [e], '.') == [e];
    assert [e + 1, e][1..] == [e];
    assert Optional(r, [e + 1, e], '.') == [e + 2, e + 1, e];
    assert Optional(r, [e + 1, e], '`') == [e + 1, e + 1, e];
    assert [e + 2, e + 1, e][1..] == [e + 1, e];
    assert Optional(r, [e + 2, e + 1, e], '`') == [e + 3, e + 2, e + 1, e + 1, e];
  }

  /** Inside a quoted schema no table capture can be completed: the closing
      backtick is followed by a dot, not by whitespace. */
  lemma QuotedSchemaSkipped(r: string, e: nat)
    requires 1 < e + 1 < |r| && r[0] == '`' && r[e] == '`' && r[e + 1] == '.'
    requires forall i :: 1 <= i < e ==> IsTableChar(r[i]) && !IsSpace(r[i])
    ensures LineFree(r, 0, e)
    ensures SchemaFrom(r, 1, 1) == SchemaFrom(r, 1, e)
  {
    assert LineFree(r, 0, e);
    forall x | 1 <= x < e
      ensures IsTableChar(r[x]) && TableEnd(r, x, x) == None
    {
      TableEndNone(r, x, x, e);
    }
    SchemaFromSkip(r, 1, 1, e);
  }

  /** Where the pieces of "`s`.`t` rest" lie. */
  lemma QuotedLayout(s: string, t: string, rest: string, r: string)
    requires r == "`" + s + "`.`" + t + "` " + rest
    ensures |r| == |s| + |t| + 6 + |rest|
    ensures r[0] == '`' && r[|s| + 1] == '`' && r[|s| + 2] == '.' && r[|s| + 3] == '`'
    ensures r[|s| + |t| + 4] == '`' && r[|s| + |t| + 5] == ' '
    ensures r[1..|s| + 1] == s && r[|s| + 4..|s| + |t| + 4] == t
  {
    var a := "`" + s;
    var b := a + "`.`" + t;
    assert r == b + "` " + rest;
    assert a[1..] == s;
    assert b[..|a|] == a && b[|a| + 3..] == t;
  }

  /** The search over "`s`.`t` ..." with the schema ending at e and the
      table at k. */
  lemma QuotedSearch(r: string, e: nat, k: nat)
    requires 1 < e && e + 3 < k && k + 1 < |r|
    requires r[0] == '`' && r[e] == '`' && r[e + 1] == '.' && r[e + 2] == '`'
    requires r[k] == '`' && IsSpace(r[k + 1])
    requires forall i :: 1 <= i < e ==> IsTableChar(r[i]) && !IsSpace(r[i])
    requires forall i :: e + 3 <= i < k ==> IsTableChar(r[i]) && !IsSpace(r[i])
    ensures Search(r) == Some(Span(1, e, e + 3, k))
  {
    QuotedSchemaSkipped(r, e);
    QuotedMarkers(r, e);
    TableEndSome(r, e + 3, e + 3, k);
    assert SchemaFrom(r, 1, e) == Some(Span(1, e, e + 3, k));
  }

  /** The detector on a recognised prefix followed by r: the captures are
      the spans the search finds in r. */
  lemma DetectOnTail(head: string, r: string, sp: Span)
    requires |head| == 12 && AlterPrefix(head) && Search(r) == Some(sp)
    ensures DetectAlterTable(head + r) ==
              Some(Capture(r[sp.schemaStart..sp.schemaEnd], r[sp.tableStart..sp.tableEnd]))
  {
    AlterPrefixExtends(head, r);
  }

  /** The characters of "`s`.`t` rest" that the search looks at. */
  lemma QuotedNames(s: string, t: string, rest: string, r: string)
    requires r == "`" + s + "`.`" + t + "` " + rest && PlainName(s) && PlainName(t)
    ensures var e, k := |s| + 1, |s| + |t| + 4;
      1 < e && e + 3 < k && k + 1 < |r| &&
      r[0] == '`' && r[e] == '`' && r[e + 1] == '.' && r[e + 2] == '`' &&
      r[k] == '`' && IsSpace(r[k + 1]) &&
      r[1..e] == s && r[e + 3..k] == t
    ensures forall i :: 1 <= i < |s| + 1 ==> IsTableChar(r[i]) && !IsSpace(r[i])
    ensures forall i :: |s| + 4 <= i < |s| + |t| + 4 ==> IsTableChar(r[i]) && !IsSpace(r[i])
  {
    QuotedLayout(s, t, rest, r);
    var e: nat := |s| + 1;
    var k: nat := e + 3 + |t|;
    forall i | 1 <= i < e
      ensures IsTableChar(r[i]) && !IsSpace(r[i])
    {
      assert r[i] == r[1..e][i - 1] == s[i - 1];
    }
    forall i | e + 3 <= i < k
      ensures IsTableChar(r[i]) && !IsSpace(r[i])
    {
      assert r[i] == r[e + 3..k][i - e - 3] == t[i - e - 3];
    }
  }

  /** ALTER TABLE `shop`.`orders` ...: both quoted names are captured
      without their backticks. */
  lemma DetectsQuotedQualifiedTable(head: string, s: string, t: string, rest: string)
    requires |head| == 12 && AlterPrefix(head) && PlainName(s) && PlainName(t)
    ensures DetectAlterTable(head + ("`" + s + "`.`" + t + "` " + rest)) == Some(Capture(s, t))
  {
    var r := "`" + s + "`.`" + t + "` " + rest;
    var e, k := |s| + 1, |s| + |t| + 4;
    QuotedNames(s, t, rest, r);
    QuotedSearch(r, e, k);
    DetectOnTail(head, r, Span(1, e, e + 3, k));
  }
}
