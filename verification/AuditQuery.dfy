/**
 * The audit viewer's query: the `WHERE` clause it assembles as text with numbered parameters, what
 * that text means to the database, and the rows it brings back - exactly the newest two hundred
 * satisfying the filters.
 */
module AuditQuery {
  import opened Optional
  import opened TenantAudit
  import Decimal
  import Text

  const MAX_ENTRIES := 200

  // ----- the table -------------------------------------------------------------------

  datatype SqlValue = SqlNull | SqlText(s: string) | SqlInstant(t: int) | SqlJson(fields: map<string, Change>)

  datatype TableRow = TableRow(
    id: nat,
    occurredAt: int,
    actorId: string,
    actorUsername: string,
    action: string,
    targetTenantId: SqlValue,
    targetOperatorId: SqlValue,
    changes: SqlValue)

  ghost predicate UniqueIds(table: seq<TableRow>) {
    forall i, j | 0 <= i < j < |table| :: table[i].id != table[j].id
  }

  datatype Filters = Filters(
    actorUsername: Option<string>,
    targetTenantId: Option<string>,
    action: Option<string>,
    occurredFrom: Option<int>,
    occurredTo: Option<int>)

  /** What the viewer means by its filters: equal texts, and an interval closed below and open above. */
  predicate Satisfies(f: Filters, row: TableRow) {
    && (f.actorUsername.Some? ==> row.actorUsername == f.actorUsername.value)
    && (f.targetTenantId.Some? ==> row.targetTenantId == SqlText(f.targetTenantId.value))
    && (f.action.Some? ==> row.action == f.action.value)
    && (f.occurredFrom.Some? ==> f.occurredFrom.value <= row.occurredAt)
    && (f.occurredTo.Some? ==> row.occurredAt < f.occurredTo.value)
  }

  // ----- conditions as text ----------------------------------------------------------

  /** `column op $param`. */
  datatype Condition = Condition(column: string, op: string, param: nat)

  function ConditionText(column: string, op: string, param: nat): string {
    column + " " + op + " $" + Decimal.Print(param)
  }

  function Texts(cs: seq<Condition>): seq<string> {
    seq(|cs|, i requires 0 <= i < |cs| => ConditionText(cs[i].column, cs[i].op, cs[i].param))
  }

  function WhereText(texts: seq<string>): string {
    if |texts| > 0 then " WHERE " + Text.Join(texts, " AND ") else ""
  }

  predicate Spaceless(c: Condition) { ' ' !in c.column && ' ' !in c.op }

  function ReadParam(token: string): Option<nat> {
    if |token| > 0 && token[0] == '$' then Decimal.Read(token[1..]) else None
  }

  /** The database reading `column op $k AND ...`, already cut into words. */
  function ReadConditions(tokens: seq<string>): Option<seq<Condition>> {
    if |tokens| < 3 || ReadParam(tokens[2]).None? then None
    else
      var c := Condition(tokens[0], tokens[1], ReadParam(tokens[2]).value);
      if |tokens| == 3 then Some([c])
      else if tokens[3] != "AND" then None
      else
        var rest := ReadConditions(tokens[4..]);
        if rest.None? then None else Some([c] + rest.value)
  }

  function ReadWhere(text: string): Option<seq<Condition>> {
    if text == "" then Some([])
    else
      var tokens := Text.Split(text, ' ');
      if |tokens| < 2 || tokens[0] != "" || tokens[1] != "WHERE" then None else ReadConditions(tokens[2..])
  }

  function Words(c: Condition): seq<string> { [c.column, c.op, "$" + Decimal.Print(c.param)] }

  lemma WordsOfCondition(c: Condition)
    requires Spaceless(c)
    ensures Text.Split(ConditionText(c.column, c.op, c.param), ' ') == Words(c)
    ensures ReadParam(Words(c)[2]) == Some(c.param)
  {
    Decimal.ReadOfPrint(c.param);
    var number := Decimal.Print(c.param);
    assert ("$" + number)[1..] == number;
    var text := ConditionText(c.column, c.op, c.param);
    assert text == c.column + [' '] + (c.op + [' '] + ("$" + number));
    Text.SplitAtSeparator(c.column, c.op + [' '] + ("$" + number), ' ');
    Text.SplitAtSeparator(c.op, "$" + number, ' ');
    Text.SplitOfPlain(c.column, ' ');
    Text.SplitOfPlain(c.op, ' ');
    Text.SplitOfPlain("$" + number, ' ');
  }

  lemma {:induction false} JoinedConditionsRead(cs: seq<Condition>)
    requires |cs| > 0 && forall c | c in cs :: Spaceless(c)
    ensures ReadConditions(Text.Split(Text.Join(Texts(cs), " AND "), ' ')) == Some(cs)
  {
    WordsOfCondition(cs[0]);
    if |cs| == 1 {
      assert cs == [cs[0]];
    } else {
      JoinedConditionsRead(cs[1..]);
      JoinedText(cs);
      AndSplits(Texts(cs)[0], Text.Join(Texts(cs[1..]), " AND "));
      ReadsOneMore(cs[0], Text.Split(Text.Join(Texts(cs[1..]), " AND "), ' '));
      assert [cs[0]] + cs[1..] == cs;
    }
  }

  lemma JoinedText(cs: seq<Condition>)
    requires |cs| > 1
    ensures Text.Join(Texts(cs), " AND ") == Texts(cs)[0] + [' '] + ("AND" + [' '] + Text.Join(Texts(cs[1..]), " AND "))
  {
    assert Texts(cs)[1..] == Texts(cs[1..]);
  }

  lemma AndSplits(first: string, rest: string)
    ensures Text.Split(first + [' '] + ("AND" + [' '] + rest), ' ')
         == Text.Split(first, ' ') + (["AND"] + Text.Split(rest, ' '))
  {
    Text.SplitAtSeparator(first, "AND" + [' '] + rest, ' ');
    Text.SplitAtSeparator("AND", rest, ' ');
    Text.SplitOfPlain("AND", ' ');
  }

  lemma ReadsOneMore(c: Condition, tail: seq<string>)
    requires ReadParam(Words(c)[2]) == Some(c.param) && ReadConditions(tail).Some?
    ensures ReadConditions(Words(c) + (["AND"] + tail)) == Some([c] + ReadConditions(tail).value)
  {
    var tokens := Words(c) + (["AND"] + tail);
    assert tokens[0] == Words(c)[0] && tokens[1] == Words(c)[1] && tokens[2] == Words(c)[2] && tokens[3] == "AND";
    assert tokens[4..] == tail;
  }

  /** The clause reads back as the conditions that were pushed, each with its own parameter number. */
  lemma WhereTextReads(cs: seq<Condition>)
    requires forall c | c in cs :: Spaceless(c)
    ensures ReadWhere(WhereText(Texts(cs))) == Some(cs)
  {
    if |cs| > 0 {
      WhereSplits(Text.Join(Texts(cs), " AND "));
      JoinedConditionsRead(cs);
    }
  }

  lemma WhereSplits(joined: string)
    ensures var tokens := Text.Split(" WHERE " + joined, ' ');
            |tokens| >= 2 && tokens[0] == "" && tokens[1] == "WHERE" && tokens[2..] == Text.Split(joined, ' ')
  {
    assert " WHERE " + joined == "" + [' '] + ("WHERE" + [' '] + joined);
    Text.SplitAtSeparator("", "WHERE" + [' '] + joined, ' ');
    Text.SplitAtSeparator("WHERE", joined, ' ');
    Text.SplitOfPlain("", ' ');
    Text.SplitOfPlain("WHERE", ' ');
  }

  // ----- what the conditions mean ----------------------------------------------------

  function ColumnOf(row: TableRow, column: string): SqlValue {
    if column == "actor_username" then SqlText(row.actorUsername)
    else if column == "target_tenant_id" then row.targetTenantId
    else if column == "action" then SqlText(row.action)
    else if column == "occurred_at" then SqlInstant(row.occurredAt)
    else SqlNull
  }

  /** SQL comparison: nothing compares true with NULL. */
  predicate Compares(op: string, a: SqlValue, b: SqlValue) {
    if a.SqlNull? || b.SqlNull? then false
    else if op == "=" then a == b
    else if op == ">=" then a.SqlInstant? && b.SqlInstant? && a.t >= b.t
    else if op == "<" then a.SqlInstant? && b.SqlInstant? && a.t < b.t
    else false
  }

  predicate Bound(cs: seq<Condition>, values: seq<SqlValue>) {
    forall c | c in cs :: 1 <= c.param <= |values|
  }

  /** A row passes when every condition holds of it; `$k` is the k-th value bound. */
  predicate Passes(row: TableRow, cs: seq<Condition>, values: seq<SqlValue>)
    requires Bound(cs, values)
  {
    forall c | c in cs :: Compares(c.op, ColumnOf(row, c.column), values[c.param - 1])
  }

  lemma PushedCondition(row: TableRow, cs: seq<Condition>, values: seq<SqlValue>, column: string, op: string, v: SqlValue)
    requires Bound(cs, values)
    ensures var cs', values' := cs + [Condition(column, op, |values| + 1)], values + [v];
            && Bound(cs', values')
            && (Passes(row, cs', values') <==> Passes(row, cs, values) && Compares(op, ColumnOf(row, column), v))
  {
    var c := Condition(column, op, |values| + 1);
    var cs', values' := cs + [c], values + [v];
    assert c in cs' && values'[|values|] == v;
    assert forall d | d in cs' :: d in cs || d == c;
    assert forall d | d in cs :: d in cs' && values'[d.param - 1] == values[d.param - 1];
  }

  /** The conditions pushed so far, their texts, and their meaning. */
  ghost predicate Assembled(cs: seq<Condition>, texts: seq<string>, values: seq<SqlValue>, f: Filters) {
    && texts == Texts(cs)
    && (forall c | c in cs :: Spaceless(c))
    && |cs| == |values|
    && (forall k | 0 <= k < |cs| :: cs[k].param == k + 1)
    && Bound(cs, values)
    && forall row: TableRow :: Passes(row, cs, values) <==> Satisfies(f, row)
  }

  /** The text and its values select what the filters mean, the k-th condition naming the k-th value. */
  ghost predicate Means(where: string, values: seq<SqlValue>, f: Filters) {
    && ReadWhere(where).Some?
    && var cs := ReadWhere(where).value;
       && |cs| == |values|
       && (forall k | 0 <= k < |cs| :: cs[k].param == k + 1)
       && Bound(cs, values)
       && forall row: TableRow :: Passes(row, cs, values) <==> Satisfies(f, row)
  }

  lemma AssembledMeans(cs: seq<Condition>, texts: seq<string>, values: seq<SqlValue>, f: Filters)
    requires Assembled(cs, texts, values, f)
    ensures Means(WhereText(texts), values, f)
  {
    WhereTextReads(cs);
  }

  ghost predicate Adds(f: Filters, f': Filters, column: string, op: string, v: SqlValue) {
    && ' ' !in column && ' ' !in op
    && forall row: TableRow :: Satisfies(f', row) <==> Satisfies(f, row) && Compares(op, ColumnOf(row, column), v)
  }

  lemma PushKeepsAssembled(cs: seq<Condition>, texts: seq<string>, values: seq<SqlValue>, f: Filters,
                           column: string, op: string, v: SqlValue, f': Filters)
    requires Assembled(cs, texts, values, f) && Adds(f, f', column, op, v)
    ensures Assembled(cs + [Condition(column, op, |values| + 1)], texts + [ConditionText(column, op, |values| + 1)],
                      values + [v], f')
  {
    var c := Condition(column, op, |values| + 1);
    forall row: TableRow
      ensures Bound(cs + [c], values + [v])
      ensures Passes(row, cs + [c], values + [v]) <==> Satisfies(f', row)
    {
      PushedCondition(row, cs, values, column, op, v);
    }
    PushedCondition(TableRow(0, 0, "", "", "", SqlNull, SqlNull, SqlNull), cs, values, column, op, v);
    assert Texts(cs + [c]) == Texts(cs) + [ConditionText(column, op, |values| + 1)];
  }

  // The filter each branch adds.

  lemma ActorAdds(f: Filters, x: string)
    requires f.actorUsername.None?
    ensures Adds(f, f.(actorUsername := Some(x)), "actor_username", "=", SqlText(x))
  {
  }

  lemma TenantAdds(f: Filters, x: string)
    requires f.targetTenantId.None?
    ensures Adds(f, f.(targetTenantId := Some(x)), "target_tenant_id", "=", SqlText(x))
  {
  }

  lemma ActionAdds(f: Filters, x: string)
    requires f.action.None?
    ensures Adds(f, f.(action := Some(x)), "action", "=", SqlText(x))
  {
  }

  lemma FromAdds(f: Filters, x: int)
    requires f.occurredFrom.None?
    ensures Adds(f, f.(occurredFrom := Some(x)), "occurred_at", ">=", SqlInstant(x))
  {
  }

  lemma ToAdds(f: Filters, x: int)
    requires f.occurredTo.None?
    ensures Adds(f, f.(occurredTo := Some(x)), "occurred_at", "<", SqlInstant(x))
  {
  }

  /** One branch: the value is pushed, and the condition names it by the length the values then have. */
  method Push(texts: seq<string>, values: seq<SqlValue>, column: string, op: string, v: SqlValue,
              ghost cs: seq<Condition>, ghost f: Filters, ghost f': Filters)
    returns (texts': seq<string>, values': seq<SqlValue>, ghost cs': seq<Condition>)
    requires Assembled(cs, texts, values, f) && Adds(f, f', column, op, v)
    ensures Assembled(cs', texts', values', f')
    ensures values' == values + [v] && texts' == texts + [ConditionText(column, op, |values'|)]
  {
    values' := values + [v];
    texts' := texts + [ConditionText(column, op, |values'|)];
    PushKeepsAssembled(cs, texts, values, f, column, op, v, f');
    cs' := cs + [Condition(column, op, |values| + 1)];
  }

  /**
   * The builder. Read by the database with the values bound, the text it returns selects exactly the
   * rows the filters mean, for every subset of the filters.
   */
  method BuildWhere(filters: Filters) returns (where: string, values: seq<SqlValue>)
    ensures Means(where, values, filters)
  {
    var conditions: seq<string> := [];
    values := [];
    ghost var cs: seq<Condition> := [];
    ghost var done := Filters(None, None, None, None, None);
    assert Assembled(cs, conditions, values, done);
    if filters.actorUsername.Some? {
      ActorAdds(done, filters.actorUsername.value);
      conditions, values, cs := Push(conditions, values, "actor_username", "=", SqlText(filters.actorUsername.value),
                                     cs, done, done.(actorUsername := filters.actorUsername));
      done := done.(actorUsername := filters.actorUsername);
    }
    if filters.targetTenantId.Some? {
      TenantAdds(done, filters.targetTenantId.value);
      conditions, values, cs := Push(conditions, values, "target_tenant_id", "=", SqlText(filters.targetTenantId.value),
                                     cs, done, done.(targetTenantId := filters.targetTenantId));
      done := done.(targetTenantId := filters.targetTenantId);
    }
    if filters.action.Some? {
      ActionAdds(done, filters.action.value);
      conditions, values, cs := Push(conditions, values, "action", "=", SqlText(filters.action.value),
                                     cs, done, done.(action := filters.action));
      done := done.(action := filters.action);
    }
    if filters.occurredFrom.Some? {
      FromAdds(done, filters.occurredFrom.value);
      conditions, values, cs := Push(conditions, values, "occurred_at", ">=", SqlInstant(filters.occurredFrom.value),
                                     cs, done, done.(occurredFrom := filters.occurredFrom));
      done := done.(occurredFrom := filters.occurredFrom);
    }
    if filters.occurredTo.Some? {
      ToAdds(done, filters.occurredTo.value);
      conditions, values, cs := Push(conditions, values, "occurred_at", "<", SqlInstant(filters.occurredTo.value),
                                     cs, done, done.(occurredTo := filters.occurredTo));
      done := done.(occurredTo := filters.occurredTo);
    }
    AssembledMeans(cs, conditions, values, done);
    where := WhereText(conditions);
  }

  // ----- order and limit -------------------------------------------------------------

  /** `ORDER BY occurred_at DESC, id DESC`: `a` is listed before `b`. */
  predicate Before(a: TableRow, b: TableRow) {
    a.occurredAt > b.occurredAt || (a.occurredAt == b.occurredAt && a.id > b.id)
  }

  ghost predicate Listed(rows: seq<TableRow>) {
    forall i, j | 0 <= i < j < |rows| :: Before(rows[i], rows[j])
  }

  function Insert(r: TableRow, rows: seq<TableRow>): seq<TableRow> {
    if rows == [] || Before(r, rows[0]) then [r] + rows else [rows[0]] + Insert(r, rows[1..])
  }

  function Sort(rows: seq<TableRow>): seq<TableRow> {
    if rows == [] then [] else Insert(rows[0], Sort(rows[1..]))
  }

  function Take(rows: seq<TableRow>, n: nat): seq<TableRow> { if |rows| <= n then rows else rows[..n] }

  /** The rows that pass, in table order. */
  function Selected(table: seq<TableRow>, cs: seq<Condition>, values: seq<SqlValue>): seq<TableRow>
    requires Bound(cs, values)
  {
    if table == [] then []
    else (if Passes(table[0], cs, values) then [table[0]] else []) + Selected(table[1..], cs, values)
  }

  /** The database: `None` for a clause it cannot read or a parameter without a value. */
  function Execute(table: seq<TableRow>, where: string, values: seq<SqlValue>): Option<seq<TableRow>> {
    var cs := ReadWhere(where);
    if cs.None? || !Bound(cs.value, values) then None
    else Some(Take(Sort(Selected(table, cs.value, values)), MAX_ENTRIES))
  }

  lemma {:induction false} InsertLists(r: TableRow, rows: seq<TableRow>)
    requires Listed(rows) && forall x | x in rows :: x.id != r.id
    ensures Listed(Insert(r, rows)) && forall x :: x in Insert(r, rows) <==> x == r || x in rows
  {
    if rows != [] && !Before(r, rows[0]) {
      InsertLists(r, rows[1..]);
      assert rows == [rows[0]] + rows[1..];
      assert forall x | x in Insert(r, rows[1..]) :: Before(rows[0], x);
    }
  }

  lemma {:induction false} SortLists(rows: seq<TableRow>)
    requires UniqueIds(rows)
    ensures Listed(Sort(rows)) && forall x :: x in Sort(rows) <==> x in rows
  {
    if rows != [] {
      SortLists(rows[1..]);
      InsertLists(rows[0], Sort(rows[1..]));
    }
  }

  lemma {:induction false} SelectedRows(table: seq<TableRow>, cs: seq<Condition>, values: seq<SqlValue>)
    requires Bound(cs, values) && UniqueIds(table)
    ensures var rows := Selected(table, cs, values);
            UniqueIds(rows) && forall r :: r in rows <==> r in table && Passes(r, cs, values)
  {
    if table != [] {
      SelectedRows(table[1..], cs, values);
      assert forall r | r in table[1..] :: r.id != table[0].id;
    }
  }

  /**
   * The newest two hundred: listed newest first, all in the table and all satisfying the filters; and
   * a satisfying row is missing only if two hundred are there and it comes after every one of them.
   */
  ghost predicate Newest(table: seq<TableRow>, f: Filters, rows: seq<TableRow>) {
    && Listed(rows)
    && |rows| <= 200
    && (forall r | r in rows :: r in table && Satisfies(f, r))
    && (forall r | r in table && Satisfies(f, r) && r !in rows ::
          |rows| == 200 && forall x | x in rows :: Before(x, r))
  }

  lemma SameIdSameRow(table: seq<TableRow>, a: TableRow, b: TableRow)
    requires UniqueIds(table) && a in table && b in table && a != b
    ensures a.id != b.id
  {
  }

  lemma {:induction false} NewestAgreeUpTo(table: seq<TableRow>, f: Filters, a: seq<TableRow>, b: seq<TableRow>, n: nat)
    requires UniqueIds(table) && Newest(table, f, a) && Newest(table, f, b)
    requires n <= |a| && n <= |b|
    ensures a[..n] == b[..n]
  {
    if n > 0 {
      var i := n - 1;
      NewestAgreeUpTo(table, f, a, b, i);
      if a[i] != b[i] {
        SameIdSameRow(table, a[i], b[i]);
        if Before(a[i], b[i]) { FirstDifferenceIsMissing(a, b, i); } else { FirstDifferenceIsMissing(b, a, i); }
        assert false;
      }
    }
  }

  /** Where two listings part, the earlier row is nowhere in the other. */
  lemma FirstDifferenceIsMissing(a: seq<TableRow>, b: seq<TableRow>, i: nat)
    requires Listed(a) && Listed(b) && i < |a| && i < |b| && a[..i] == b[..i] && Before(a[i], b[i])
    ensures a[i] !in b
  {
    forall j | 0 <= j < |b| ensures b[j] != a[i] {
      if j < i {
        assert b[j] == b[..i][j] == a[..i][j] == a[j];
        assert Before(a[j], a[i]);
      } else if j > i {
        assert Before(b[i], b[j]);
      }
    }
  }

  /** There is only one such list. */
  lemma NewestIsUnique(table: seq<TableRow>, f: Filters, a: seq<TableRow>, b: seq<TableRow>)
    requires UniqueIds(table) && Newest(table, f, a) && Newest(table, f, b)
    ensures a == b
  {
    if |a| < |b| {
      NoLongerNewest(table, f, a, b);
    } else if |b| < |a| {
      NoLongerNewest(table, f, b, a);
    } else {
      NewestAgreeUpTo(table, f, a, b, |a|);
      assert a[..|a|] == a && b[..|b|] == b;
    }
  }

  lemma NoLongerNewest(table: seq<TableRow>, f: Filters, a: seq<TableRow>, b: seq<TableRow>)
    requires UniqueIds(table) && Newest(table, f, a) && Newest(table, f, b)
    ensures |a| >= |b|
  {
    if |a| < |b| {
      NewestAgreeUpTo(table, f, a, b, |a|);
      assert b[|a|] in b;
      NextRowIsMissing(a, b);
    }
  }

  lemma NextRowIsMissing(a: seq<TableRow>, b: seq<TableRow>)
    requires Listed(b) && |a| < |b| && a[..|a|] == b[..|a|]
    ensures b[|a|] !in a
  {
    forall j | 0 <= j < |a| ensures a[j] != b[|a|] {
      assert a[j] == a[..|a|][j] == b[..|a|][j] == b[j];
      assert Before(b[j], b[|a|]);
    }
  }

  lemma TakenEarly(sorted: seq<TableRow>, n: nat, k: nat)
    requires k < n && k < |sorted|
    ensures sorted[k] in Take(sorted, n)
  {
    assert Take(sorted, n)[k] == sorted[k];
  }

  lemma TakeIsNewest(table: seq<TableRow>, f: Filters, sorted: seq<TableRow>)
    requires Listed(sorted) && forall r :: r in sorted <==> r in table && Satisfies(f, r)
    ensures Newest(table, f, Take(sorted, MAX_ENTRIES))
  {
    var rows := Take(sorted, MAX_ENTRIES);
    forall r | r in table && Satisfies(f, r) && r !in rows
      ensures |rows| == MAX_ENTRIES && forall x | x in rows :: Before(x, r)
    {
      var k :| 0 <= k < |sorted| && sorted[k] == r;
      if k < MAX_ENTRIES { TakenEarly(sorted, MAX_ENTRIES, k); }
    }
  }

  /** What the database returns for any clause that means the filters. */
  lemma ExecuteReturnsNewest(table: seq<TableRow>, f: Filters, where: string, values: seq<SqlValue>)
    requires UniqueIds(table) && Means(where, values, f)
    ensures Execute(table, where, values).Some? && Newest(table, f, Execute(table, where, values).value)
  {
    var cs := ReadWhere(where).value;
    SelectedRows(table, cs, values);
    SortLists(Selected(table, cs, values));
    TakeIsNewest(table, f, Sort(Selected(table, cs, values)));
  }

  // ----- the trail and its listing ---------------------------------------------------

  function TextOrNull(t: Option<string>): SqlValue { if t.Some? then SqlText(t.value) else SqlNull }
  function NullToNone(v: SqlValue): Option<string> { if v.SqlText? then Some(v.s) else None }

  /** The row `appendAuditEntry` stores under the identifier the table hands out. */
  function Stored(id: nat, e: AuditRow): TableRow {
    TableRow(id, e.occurredAt, e.actorId, e.actorUsername, e.action, TextOrNull(e.targetTenantId),
             TextOrNull(e.targetOperatorId), if e.changes.Some? then SqlJson(e.changes.value) else SqlNull)
  }

  datatype AuditEntry = AuditEntry(
    id: nat,
    occurredAt: int,
    actorUsername: string,
    action: string,
    targetTenantId: Option<string>,
    targetOperatorId: Option<string>,
    changes: Option<map<string, Change>>)

  function View(row: TableRow): AuditEntry {
    AuditEntry(row.id, row.occurredAt, row.actorUsername, row.action, NullToNone(row.targetTenantId),
               NullToNone(row.targetOperatorId), if row.changes.SqlJson? then Some(row.changes.fields) else None)
  }

  function Views(rows: seq<TableRow>): seq<AuditEntry> {
    seq(|rows|, i requires 0 <= i < |rows| => View(rows[i]))
  }

  /** Each row is newer than those before it: the clock has not run back and identifiers only grow. */
  ghost predicate InOrder(table: seq<TableRow>) {
    forall i, j | 0 <= i < j < |table| :: table[i].occurredAt <= table[j].occurredAt && table[i].id < table[j].id
  }

  /** The satisfying rows, last written first. */
  function Recent(table: seq<TableRow>, f: Filters): seq<TableRow> {
    if table == [] then []
    else
      var last := table[|table| - 1];
      (if Satisfies(f, last) then [last] else []) + Recent(table[..|table| - 1], f)
  }

  lemma {:induction false} RecentLists(table: seq<TableRow>, f: Filters)
    requires InOrder(table)
    ensures Listed(Recent(table, f)) && forall r :: r in Recent(table, f) <==> r in table && Satisfies(f, r)
  {
    if table != [] {
      var init, last := table[..|table| - 1], table[|table| - 1];
      RecentLists(init, f);
      assert table == init + [last];
      assert forall r | r in init :: Before(last, r);
      if Satisfies(f, last) { ListedBehind(last, Recent(init, f)); }
    }
  }

  lemma ListedBehind(r: TableRow, rows: seq<TableRow>)
    requires Listed(rows) && forall x | x in rows :: Before(r, x)
    ensures Listed([r] + rows)
  {
  }

  /** Under a clock that does not run back, the listing is the trail read backwards. */
  lemma ListingIsTheTrailBackwards(table: seq<TableRow>, f: Filters, rows: seq<TableRow>)
    requires InOrder(table)
    ensures Newest(table, f, rows) <==> rows == Take(Recent(table, f), MAX_ENTRIES)
  {
    RecentLists(table, f);
    TakeIsNewest(table, f, Recent(table, f));
    if Newest(table, f, rows) {
      NewestIsUnique(table, f, rows, Take(Recent(table, f), MAX_ENTRIES));
    }
  }

  // From the entries appended to the entries listed, with the table out of sight.

  /** The table holds these entries, in order, under whatever identifiers it handed out. */
  ghost predicate Holds(table: seq<TableRow>, entries: seq<AuditRow>) {
    |table| == |entries| && forall i | 0 <= i < |table| :: table[i] == Stored(table[i].id, entries[i])
  }

  /** What the filters ask of an entry as its handler wrote it. */
  predicate Meets(f: Filters, e: AuditRow) {
    && (f.actorUsername.Some? ==> e.actorUsername == f.actorUsername.value)
    && (f.targetTenantId.Some? ==> e.targetTenantId == f.targetTenantId)
    && (f.action.Some? ==> e.action == f.action.value)
    && (f.occurredFrom.Some? ==> f.occurredFrom.value <= e.occurredAt)
    && (f.occurredTo.Some? ==> e.occurredAt < f.occurredTo.value)
  }

  /** The entries that meet the filters, last written first. */
  function Latest(entries: seq<AuditRow>, f: Filters): seq<AuditRow> {
    if entries == [] then []
    else
      var last := entries[|entries| - 1];
      (if Meets(f, last) then [last] else []) + Latest(entries[..|entries| - 1], f)
  }

  /** What the viewer shows of an entry is the entry's own. */
  predicate Shows(v: AuditEntry, e: AuditRow) {
    && v.occurredAt == e.occurredAt && v.actorUsername == e.actorUsername && v.action == e.action
    && v.targetTenantId == e.targetTenantId && v.targetOperatorId == e.targetOperatorId && v.changes == e.changes
  }

  lemma StoredAsWritten(id: nat, e: AuditRow, f: Filters)
    ensures Satisfies(f, Stored(id, e)) <==> Meets(f, e)
    ensures Shows(View(Stored(id, e)), e)
  {
  }

  ghost predicate ShowAll(rows: seq<TableRow>, entries: seq<AuditRow>) {
    |rows| == |entries| && forall i | 0 <= i < |rows| :: Shows(View(rows[i]), entries[i])
  }

  lemma {:induction false} RecentShowsLatest(table: seq<TableRow>, entries: seq<AuditRow>, f: Filters)
    requires Holds(table, entries)
    ensures ShowAll(Recent(table, f), Latest(entries, f))
  {
    if table != [] {
      var n := |table| - 1;
      RecentShowsLatest(table[..n], entries[..n], f);
      StoredAsWritten(table[n].id, entries[n], f);
    }
  }

  /**
   * Under a clock that does not run back, the viewer lists the last two hundred of the entries that meet
   * the filters, newest first, each with what its handler wrote.
   */
  lemma ListingShowsTheLatest(table: seq<TableRow>, entries: seq<AuditRow>, f: Filters, rows: seq<TableRow>)
    requires Holds(table, entries) && InOrder(table) && Newest(table, f, rows)
    ensures var latest := Latest(entries, f);
            ShowAll(rows, if |latest| <= 200 then latest else latest[..200])
  {
    ListingIsTheTrailBackwards(table, f, rows);
    RecentShowsLatest(table, entries, f);
  }

  class AuditLog {
    var table: seq<TableRow>
    var nextId: nat

    ghost predicate Valid() reads this {
      UniqueIds(table) && forall r | r in table :: r.id < nextId
    }

    constructor ()
      ensures Valid() && table == []
    {
      table, nextId := [], 0;
    }

    method AppendAuditEntry(e: AuditRow)
      requires Valid()
      modifies this
      ensures Valid()
      ensures table == old(table) + [Stored(old(nextId), e)]
      ensures Shows(View(table[|table| - 1]), e)
      ensures forall entries :: Holds(old(table), entries) ==> Holds(table, entries + [e])
    {
      table, nextId := table + [Stored(nextId, e)], nextId + 1;
    }

    /** The entries listed are the views of the newest two hundred satisfying rows - of which there is one list. */
    method ListAuditEntries(filters: Filters) returns (entries: seq<AuditEntry>)
      requires Valid()
      ensures exists rows :: Newest(table, filters, rows)
      ensures forall rows | Newest(table, filters, rows) :: entries == Views(rows)
    {
      var where, values := BuildWhere(filters);
      ExecuteReturnsNewest(table, filters, where, values);
      var found := Execute(table, where, values).value;
      forall rows | Newest(table, filters, rows) ensures rows == found {
        NewestIsUnique(table, filters, rows, found);
      }
      entries := Views(found);
    }
  }
}
