/**
 An abstract relational store with just enough behaviour to run the printed statements: tables of rows in
 row-id order, a cell holding the last inserted row id, and an evaluator that resolves columns by name.
 Beside it stands the direct, index-based reading of the same requests; `SelectMeaning` and the insert
 theorems say that printing, lexing, parsing and evaluating a request is the same as reading it directly.
 */
module Relational {
  import opened Core
  import opened Decimal
  import opened SqlLexer
  import opened SqlParser
  import opened QueryBuilder
  import opened Splicing

  datatype Value = Null | Int(i: int) | Str(s: string)

  /** The declared type of a column, as far as it decides what the column keeps of a value. */
  datatype Affinity = IntColumn | TextColumn | AnyColumn

  /** A column; a stamped one defaults to the current time, any other to NULL. */
  datatype Column = Column(name: string, affinity: Affinity, stamped: bool)

  datatype Row = Row(id: int, cells: seq<Value>)

  datatype Relation = Relation(columns: seq<Column>, rows: seq<Row>)

  datatype Store = Store(tables: map<string, Relation>, lastRowid: int)

  /** The store and the rows called back; a text that fails part way keeps what its earlier statements did. */
  datatype Outcome = Failed(store: Store, rows: seq<seq<Value>>) | Done(store: Store, rows: seq<seq<Value>>)

  function ToValue(v: Literal): Value {
    match v
    case IntLit(n) => Int(n)
    case TextLit(t) => Str(t)
  }

  /** A literal as a column of the type keeps it: a text column turns an integer into its decimal text, an
      integer column turns a text that is an integer into that integer. */
  function KeptLiteral(a: Affinity, v: Literal): Literal {
    match (a, v)
    case (TextColumn, IntLit(n)) => TextLit(OfInt(n))
    case (IntColumn, TextLit(t)) => if AsInteger(t).Some? then IntLit(AsInteger(t).value) else v
    case _ => v
  }

  function Kept(a: Affinity, v: Value): Value {
    match v
    case Null => Null
    case Int(n) => ToValue(KeptLiteral(a, IntLit(n)))
    case Str(t) => ToValue(KeptLiteral(a, TextLit(t)))
  }

  /** A row as the columns keep it. */
  function Stored(columns: seq<Column>, cells: seq<Value>): seq<Value> {
    seq(|cells|, i requires 0 <= i < |cells| =>
      if i < |columns| then Kept(columns[i].affinity, cells[i]) else cells[i])
  }

  function TextLess(a: string, b: string): bool {
    if b == "" then false
    else if a == "" then true
    else if a[0] != b[0] then a[0] < b[0]
    else TextLess(a[1..], b[1..])
  }

  /** The order of values: integers before texts, texts by character. */
  function Less(a: Value, b: Value): bool {
    match (a, b)
    case (Int(x), Int(y)) => x < y
    case (Int(_), Str(_)) => true
    case (Str(x), Str(y)) => TextLess(x, y)
    case _ => false
  }

  /** Texts compare by their first difference: there the smaller character decides, and if there is none the
      shorter text comes first. */
  lemma {:induction false} FirstDifference(a: string, b: string)
    ensures TextLess(a, b) <==>
              (a < b || exists k :: 0 <= k < |a| && k < |b| && a[..k] == b[..k] && a[k] < b[k])
    decreases |a|
  {
    if a != "" && b != "" {
      FirstDifference(a[1..], b[1..]);
      if a[0] != b[0] {
        assert a[..0] == b[..0];
        forall k | 0 < k < |a| && k < |b| ensures a[..k] != b[..k] {
          assert a[..k][0] != b[..k][0];
        }
      } else {
        assert a < b <==> a[1..] < b[1..] by {
          assert a == [a[0]] + a[1..] && b == [b[0]] + b[1..];
        }
        forall k | 0 < k < |a| && k < |b|
          ensures a[..k] == b[..k] <==> a[1..][..k - 1] == b[1..][..k - 1]
        {
          assert a[..k] == [a[0]] + a[1..][..k - 1] && b[..k] == [b[0]] + b[1..][..k - 1];
        }
        forall k | 0 <= k < |a[1..]| && k < |b[1..]| ensures a[1..][k] == a[k + 1] && b[1..][k] == b[k + 1] {
        }
        SameDifference(a, b);
      }
    }
  }

  lemma SameDifference(a: string, b: string)
    requires a != "" && b != "" && a[0] == b[0]
    ensures (exists k :: 0 <= k < |a| && k < |b| && a[..k] == b[..k] && a[k] < b[k]) <==>
            (exists k :: 0 <= k < |a[1..]| && k < |b[1..]| && a[1..][..k] == b[1..][..k] && a[1..][k] < b[1..][k])
  {
    if k :| 0 <= k < |a| && k < |b| && a[..k] == b[..k] && a[k] < b[k] {
      var j := k - 1;
      assert a[1..][..j] == a[..k][1..] == b[..k][1..] == b[1..][..j] && a[1..][j] < b[1..][j];
    }
    if k :| 0 <= k < |a[1..]| && k < |b[1..]| && a[1..][..k] == b[1..][..k] && a[1..][k] < b[1..][k] {
      assert a[..k + 1] == [a[0]] + a[1..][..k] == [b[0]] + b[1..][..k] == b[..k + 1] && a[k + 1] < b[k + 1];
    }
  }

  lemma {:induction false} TextsAreOrdered(a: string, b: string, c: string)
    ensures !(TextLess(a, b) && TextLess(b, a)) && (TextLess(a, b) || TextLess(b, a) || a == b) && !TextLess(a, a)
    ensures TextLess(a, b) && TextLess(b, c) ==> TextLess(a, c)
    decreases |a|
  {
    if a != "" {
      TextsAreOrdered(a[1..], if b == "" then "" else b[1..], if c == "" then "" else c[1..]);
      if b != "" {
        assert a == [a[0]] + a[1..] && b == [b[0]] + b[1..];
      }
    }
  }

  /** Values stand in one strict order, integers by size before every text; NULL is outside it. So of two
      values of a condition exactly one of less, equal and greater holds. */
  lemma ValuesAreOrdered(a: Value, b: Value, c: Value)
    requires !a.Null? && !b.Null? && !c.Null?
    ensures Less(a, b) <==> a != b && !Less(b, a)
    ensures Less(a, b) && Less(b, c) ==> Less(a, c)
    ensures a.Int? && b.Int? ==> (Less(a, b) <==> a.i < b.i)
    ensures a.Int? && b.Str? ==> Less(a, b)
    ensures !Less(Null, a) && !Less(a, Null)
  {
    hide TextLess;
    if a.Str? && b.Str? {
      TextsAreOrdered(a.s, b.s, if c.Str? then c.s else "");
    }
  }

  /** The engine's comparison by symbol; nothing compares with NULL. */
  predicate Compares(symbol: string, a: Value, b: Value) {
    !a.Null? && !b.Null? &&
    ((symbol == ">" && Less(b, a)) ||
     (symbol == ">=" && (Less(b, a) || a == b)) ||
     (symbol == "==" && a == b) ||
     (symbol == "<" && Less(a, b)) ||
     (symbol == "<=" && (Less(a, b) || a == b)))
  }

  // ---------- the engine ----------

  /** First column of that name, or -1. */
  function FindColumn(columns: seq<Column>, name: string): (i: int)
    ensures -1 <= i < |columns|
    ensures i >= 0 ==> columns[i].name == name && forall j :: 0 <= j < i ==> columns[j].name != name
    ensures i == -1 ==> forall j :: 0 <= j < |columns| ==> columns[j].name != name
  {
    if columns == [] then -1
    else if columns[0].name == name then 0
    else var i := FindColumn(columns[1..], name); if i == -1 then -1 else i + 1
  }

  predicate Resolves(t: Relation, name: string) {
    FindColumn(t.columns, name) >= 0 || name == "rowid"
  }

  function CellAt(r: Row, i: nat): Value {
    if i < |r.cells| then r.cells[i] else Null
  }

  function NamedCell(t: Relation, r: Row, name: string): Value {
    var i := FindColumn(t.columns, name);
    if i >= 0 then CellAt(r, i) else Int(r.id)
  }

  /** The type of a named column; the row id is an integer. */
  function NamedAffinity(t: Relation, name: string): Affinity {
    var i := FindColumn(t.columns, name);
    if i >= 0 then t.columns[i].affinity else IntColumn
  }

  /** A literal is compared as the column beside it would keep it. */
  predicate Meets(t: Relation, r: Row, conditions: seq<Condition>) {
    forall c :: c in conditions ==>
      Compares(c.symbol, NamedCell(t, r, c.column), ToValue(KeptLiteral(NamedAffinity(t, c.column), c.value)))
  }

  function Answer(t: Relation, r: Row, target: Target): seq<Value> {
    match target
    case AllColumns => r.cells
    case OneColumn(name) => [NamedCell(t, r, name)]
  }

  function Answers(t: Relation, rows: seq<Row>, target: Target, conditions: seq<Condition>): seq<seq<Value>> {
    if rows == [] then []
    else
      (if Meets(t, rows[0], conditions) then [Answer(t, rows[0], target)] else []) +
      Answers(t, rows[1..], target, conditions)
  }

  /** Row ids grow by one past the last row. */
  function NextId(rows: seq<Row>): int {
    if rows == [] then 1 else rows[|rows| - 1].id + 1
  }

  function NamedValue(names: seq<string>, values: seq<Literal>, name: string, default: Value): Value
    requires |names| == |values|
  {
    if names == [] then default
    else if names[0] == name then ToValue(values[0])
    else NamedValue(names[1..], values[1..], name, default)
  }

  function NewCells(t: Relation, names: seq<string>, values: seq<Literal>, now: Value): seq<Value>
    requires |names| == |values|
  {
    seq(|t.columns|, i requires 0 <= i < |t.columns| =>
      NamedValue(names, values, t.columns[i].name, if t.columns[i].stamped then now else Null))
  }

  function AppendRow(st: Store, table: string, cells: seq<Value>): Store
    requires table in st.tables
  {
    var t := st.tables[table];
    var id := NextId(t.rows);
    Store(st.tables[table := t.(rows := t.rows + [Row(id, cells)])], id)
  }

  function Values(values: seq<Literal>): seq<Value> {
    seq(|values|, i requires 0 <= i < |values| => ToValue(values[i]))
  }

  function Run(st: Store, s: Statement, now: Value): Outcome {
    if s.table !in st.tables then Failed(st, [])
    else
      var t := st.tables[s.table];
      match s
      case Insert(table, None, values) =>
        if |values| != |t.columns| then Failed(st, [])
        else Done(AppendRow(st, table, Stored(t.columns, Values(values))), [])
      case Insert(table, Some(names), values) =>
        if |names| != |values| || exists n :: n in names && FindColumn(t.columns, n) == -1 then Failed(st, [])
        else Done(AppendRow(st, table, Stored(t.columns, NewCells(t, names, values, now))), [])
      case Select(target, table, conditions) =>
        if (target.OneColumn? && !Resolves(t, target.name)) || exists c :: c in conditions && !Resolves(t, c.column)
        then Failed(st, [])
        else Done(st, Answers(t, t.rows, target, conditions))
  }

  /** Statement after statement, each up to its semicolon, until one fails; `whole` says that the text lexes
      to its end. An empty statement does nothing, an unfinished one fails. */
  function RunAll(st: Store, ts: seq<Token>, whole: bool, now: Value): Outcome
    decreases |ts|
  {
    var n := SemiEnd(ts);
    if n == 0 then if ts == [] && whole then Done(st, []) else Failed(st, [])
    else if n == 1 then RunAll(st, ts[1..], whole, now)
    else
      match Parse(ts[..n])
      case None => Failed(st, [])
      case Some(s) =>
        match Run(st, s, now)
        case Failed(_, _) => Failed(st, [])
        case Done(st1, first) =>
          match RunAll(st1, ts[n..], whole, now)
          case Failed(st2, more) => Failed(st2, first + more)
          case Done(st2, more) => Done(st2, first + more)
  }

  /** `sqlite3_exec`: runs the statements of a text, as many as there are. Statements outside the printed
      subset fail. */
  function Exec(st: Store, text: string, now: Value): Outcome {
    RunAll(st, LexAll(text).0, LexAll(text).1, now)
  }

  /** A text that parses is one statement. */
  lemma ExecOne(st: Store, text: string, s: Statement, now: Value)
    requires ParseText(text) == Some(s)
    ensures Exec(st, text, now) == Run(st, s, now)
  {
    hide Lex, LexAll, Parse, Tokens, SemiEnd, Run;
    var ts := Lex(text).value;
    LexIsWhole(text);
    ParseIsExact(ts);
    OneSemi(s);
    assert ts[..|ts|] == ts && ts[|ts|..] == [];
    NothingLeft(st, now);
    RunFails(st, s, now);
    match Run(st, s, now) {
      case Failed(_, _) =>
      case Done(st1, first) => NothingLeft(st1, now); assert first + [] == first;
    }
  }

  lemma NothingLeft(st: Store, now: Value)
    ensures RunAll(st, [], true, now) == Done(st, [])
  {
  }

  lemma RunFails(st: Store, s: Statement, now: Value)
    ensures Run(st, s, now).Failed? ==> Run(st, s, now) == Failed(st, [])
  {
  }

  // ---------- selects change nothing ----------

  /** However many statements a text holds, it changes nothing if its first is a select and it has but one
      semicolon. */
  lemma OneSelectIsReadOnly(st: Store, ts: seq<Token>, whole: bool, now: Value)
    requires ts != [] && ts[0] == SELECT && SemiCount(ts) <= 1
    ensures RunAll(st, ts, whole, now).store == st
  {
    var n := SemiEnd(ts);
    if n > 1 {
      SemiEndCount(ts);
      if SemiEnd(ts[n..]) > 0 {
        SemiEndCount(ts[n..]);
      }
      assert ts[..n][0] == SELECT != INSERT;
    }
  }

  lemma SelectComesFirst(d: Descriptor, tests: seq<Test>, target: int)
    requires tests != [] && forall i :: 0 <= i < |tests| ==> IsTest(d, tests[i])
    requires target == ALL || target == ROW_ID || IsColumn(d, target)
    ensures var ts := LexAll(SelectText(d, tests, target)).0; ts != [] && ts[0] == SELECT
  {
    hide TargetName, TestsText;
    var (name, inner) := (TargetName(d, target), TestsText(d, tests));
    StartsWithSelect(name + " FROM " + d.table + " WHERE( " + inner + " ) ;");
    FrontOfSelect(name, d.table, inner);
  }

  lemma FrontOfSelect(name: string, table: string, inner: string)
    ensures "SELECT " + name + " FROM " + table + " WHERE( " + inner + " ) ;" ==
            "SELECT " + (name + " FROM " + table + " WHERE( " + inner + " ) ;")
  {
    var a, b, c := "SELECT ", " FROM ", " WHERE( ";
    assert a + name + b + table + c + inner + " ) ;" == a + (name + b + table + c + inner + " ) ;");
  }

  lemma StartsWithSelect(rest: string)
    ensures var ts := LexAll("SELECT " + rest).0; ts != [] && ts[0] == SELECT
  {
    var s := "SELECT " + rest;
    assert s[6] == ' ' && s[..6] == "SELECT" && !IsDigit(s[0]);
    AlnumRunIs(s, 6);
    assert NextToken(s) == Some((SELECT, 6));
  }

  lemma RunSelect(st: Store, s: Statement, now: Value)
    requires s.Select?
    ensures Run(st, s, now).store == st
  {
  }

  predicate SemicolonFree(v: Literal) {
    v.TextLit? ==> ';' !in v.t
  }

  lemma {:induction false} NoSemicolons(values: seq<Literal>)
    requires forall i :: 0 <= i < |values| ==> SemicolonFree(values[i])
    ensures CountPrinted(values, ';') == 0
  {
    if values != [] {
      NoSemicolons(values[1..]);
      match values[0] {
        case IntLit(n) =>
          var d := OfNat(if n < 0 then -n else n);
          NatRoundTrip(if n < 0 then -n else n);
          CountNone(OfInt(n), ';');
        case TextLit(t) =>
          QuotedCount(t, ';');
          CountNone(t, ';');
      }
    }
  }

  /** A printed select changes nothing, on any store, if none of its texts holds a double quote, or none a
      semicolon: the first cannot end its quoting, the second cannot begin a further statement. */
  lemma SelectIsReadOnly(st: Store, d: Descriptor, tests: seq<Test>, target: int, now: Value)
    requires Sound(d) && tests != [] && forall i :: 0 <= i < |tests| ==> IsTest(d, tests[i])
    requires target == ALL || target == ROW_ID || IsColumn(d, target)
    requires (forall i :: 0 <= i < |tests| ==> Printable(tests[i].value)) ||
             (forall i :: 0 <= i < |tests| ==> SemicolonFree(tests[i].value))
    ensures Exec(st, SelectText(d, tests, target), now).store == st
  {
    hide Lex, LexAll, ParseText, RunAll, TestsText, Sound, SelectText, Run, CountPrinted, SemiCount;
    var text := SelectText(d, tests, target);
    if forall i :: 0 <= i < |tests| ==> Printable(tests[i].value) {
      SelectRoundTrip(d, tests, target);
      ExecOne(st, text, SelectStatement(d, tests, target), now);
      RunSelect(st, SelectStatement(d, tests, target), now);
    } else {
      NoSemicolons(TestValues(tests));
      CountSelect(d, tests, target, ';');
      SemisAreSemicolons(text);
      SelectComesFirst(d, tests, target);
      OneSelectIsReadOnly(st, LexAll(text).0, LexAll(text).1, now);
    }
  }

  // ---------- the direct reading ----------

  /** What a comparison code means by its enumerator: higher, at least, equal, at most, lower. */
  predicate Meaning(code: nat, a: Value, b: Value) {
    !a.Null? && !b.Null? &&
    match code
    case 0 => Less(b, a)
    case 1 => Less(b, a) || a == b
    case 2 => a == b
    case 3 => Less(a, b) || a == b
    case 4 => Less(a, b)
    case _ => false
  }

  function IndexedCell(r: Row, column: int): Value
    requires column == ROW_ID || 0 <= column
  {
    if column == ROW_ID then Int(r.id) else CellAt(r, column)
  }

  predicate Passes(r: Row, tests: seq<Test>)
    requires forall i :: 0 <= i < |tests| ==> tests[i].column == ROW_ID || 0 <= tests[i].column
  {
    forall i :: 0 <= i < |tests| ==>
      Meaning(tests[i].code, IndexedCell(r, tests[i].column), ToValue(tests[i].value))
  }

  function Project(r: Row, target: int): seq<Value>
    requires target == ALL || target == ROW_ID || 0 <= target
  {
    if target == ALL then r.cells else [IndexedCell(r, target)]
  }

  function Filter(rows: seq<Row>, tests: seq<Test>): seq<Row>
    requires forall i :: 0 <= i < |tests| ==> tests[i].column == ROW_ID || 0 <= tests[i].column
  {
    if rows == [] then []
    else (if Passes(rows[0], tests) then [rows[0]] else []) + Filter(rows[1..], tests)
  }

  function ProjectAll(rows: seq<Row>, target: int): (answers: seq<seq<Value>>)
    requires target == ALL || target == ROW_ID || 0 <= target
    ensures |answers| == |rows| && forall i :: 0 <= i < |rows| ==> answers[i] == Project(rows[i], target)
  {
    seq(|rows|, i requires 0 <= i < |rows| => Project(rows[i], target))
  }

  /** Column `i` of the descriptor is column `i` of the stored table, or the row id. */
  predicate Agrees(d: Descriptor, t: Relation, i: int) {
    i == ROW_ID || (IsColumn(d, i) && i < |t.columns| && t.columns[i].name == d.columns[i])
  }

  /** Stored column names are distinct and none hides the row id. */
  ghost predicate Keyed(t: Relation) {
    (forall i, j :: 0 <= i < j < |t.columns| ==> t.columns[i].name != t.columns[j].name) &&
    forall i :: 0 <= i < |t.columns| ==> t.columns[i].name != "rowid"
  }

  lemma FindAgreed(d: Descriptor, t: Relation, i: int)
    requires Sound(d) && Keyed(t) && Agrees(d, t, i)
    ensures FindColumn(t.columns, ColumnName(d, i)) == if i == ROW_ID then -1 else i
  {
  }

  /** Codes 3 and 4 print each other's symbol. */
  function PrintedCode(code: nat): nat {
    if code == 3 then 4 else if code == 4 then 3 else code
  }

  /** The type of column `i`; the row id is an integer. */
  function IndexedAffinity(t: Relation, i: int): Affinity {
    if 0 <= i < |t.columns| then t.columns[i].affinity else IntColumn
  }

  /** A test as the engine makes it: with the code its symbol stands for, and the value as the column keeps
      it. */
  function MadeTest(t: Relation, test: Test): Test {
    Test(test.column, KeptLiteral(IndexedAffinity(t, test.column), test.value), PrintedCode(test.code))
  }

  function MadeTests(t: Relation, tests: seq<Test>): seq<Test> {
    seq(|tests|, i requires 0 <= i < |tests| => MadeTest(t, tests[i]))
  }

  lemma SymbolMeaning(code: nat, a: Value, b: Value)
    requires code < |SYMBOLS|
    ensures Compares(SYMBOLS[code], a, b) == Meaning(PrintedCode(code), a, b)
  {
    assert ">" != ">=" && "==" != ">=" && "<" != "<=" && "==" != "<=" && "<=" != ">=";
    assert |"<"| == 1 && |">"| == 1 && |"=="| == 2;
  }

  /** A comparison symbol means what its enumerator says exactly for the codes the server uses. */
  lemma CodesThatMeanTheirName(code: nat)
    requires code < |SYMBOLS|
    ensures (forall a, b :: Compares(SYMBOLS[code], a, b) == Meaning(code, a, b)) <==> code <= 2
  {
    if code <= 2 {
      forall a, b ensures Compares(SYMBOLS[code], a, b) == Meaning(code, a, b) {
        SymbolMeaning(code, a, b);
      }
    } else {
      SymbolMeaning(code, Int(1), Int(1));
      assert Compares(SYMBOLS[code], Int(1), Int(1)) != Meaning(code, Int(1), Int(1));
    }
  }

  lemma AgreedColumn(d: Descriptor, t: Relation, r: Row, i: int)
    requires Sound(d) && Keyed(t) && Agrees(d, t, i)
    ensures NamedAffinity(t, ColumnName(d, i)) == IndexedAffinity(t, i)
    ensures NamedCell(t, r, ColumnName(d, i)) == IndexedCell(r, i)
  {
    FindAgreed(d, t, i);
  }

  lemma MeetsIsPasses(d: Descriptor, t: Relation, r: Row, tests: seq<Test>)
    requires Sound(d) && Keyed(t)
    requires forall i :: 0 <= i < |tests| ==> IsTest(d, tests[i]) && Agrees(d, t, tests[i].column)
    ensures Meets(t, r, ToConditions(d, tests)) == Passes(r, MadeTests(t, tests))
  {
    hide FindColumn, Sound, Keyed, Agrees, NamedCell, NamedAffinity, KeptLiteral, ColumnName, Compares, Meaning;
    var cs, ps := ToConditions(d, tests), MadeTests(t, tests);
    forall i | 0 <= i < |tests|
      ensures Compares(cs[i].symbol, NamedCell(t, r, cs[i].column),
                ToValue(KeptLiteral(NamedAffinity(t, cs[i].column), cs[i].value))) ==
              Meaning(ps[i].code, IndexedCell(r, ps[i].column), ToValue(ps[i].value))
    {
      AgreedColumn(d, t, r, tests[i].column);
      SymbolMeaning(tests[i].code, IndexedCell(r, tests[i].column), ToValue(ps[i].value));
    }
    if Meets(t, r, cs) {
      forall i | 0 <= i < |tests|
        ensures Meaning(ps[i].code, IndexedCell(r, ps[i].column), ToValue(ps[i].value))
      {
        assert cs[i] in cs;
      }
    }
  }

  lemma {:induction false} AnswersAreFiltered(d: Descriptor, t: Relation, rows: seq<Row>, tests: seq<Test>, target: int)
    requires Sound(d) && Keyed(t)
    requires forall i :: 0 <= i < |tests| ==> IsTest(d, tests[i]) && Agrees(d, t, tests[i].column)
    requires target == ALL || Agrees(d, t, target)
    ensures Answers(t, rows, SelectStatement(d, tests, target).target, ToConditions(d, tests)) ==
            ProjectAll(Filter(rows, MadeTests(t, tests)), target)
  {
    hide Meets, Passes, ToConditions, Sound, Keyed, Answer, Project;
    if rows != [] {
      AnswersAreFiltered(d, t, rows[1..], tests, target);
      MeetsIsPasses(d, t, rows[0], tests);
      AnswerIsProjection(d, t, rows[0], tests, target);
      ProjectFirst(rows[0], Filter(rows[1..], MadeTests(t, tests)), target);
    }
  }

  lemma AnswerIsProjection(d: Descriptor, t: Relation, r: Row, tests: seq<Test>, target: int)
    requires Sound(d) && Keyed(t) && (forall i :: 0 <= i < |tests| ==> IsTest(d, tests[i]))
    requires target == ALL || Agrees(d, t, target)
    ensures Answer(t, r, SelectStatement(d, tests, target).target) == Project(r, target)
  {
    if target != ALL {
      FindAgreed(d, t, target);
    }
  }

  lemma ProjectFirst(r: Row, rest: seq<Row>, target: int)
    requires target == ALL || target == ROW_ID || 0 <= target
    ensures ProjectAll([r] + rest, target) == [Project(r, target)] + ProjectAll(rest, target)
    ensures ProjectAll([] + rest, target) == [] + ProjectAll(rest, target)
  {
    hide Project, ProjectAll;
    assert [] + rest == rest && [] + ProjectAll(rest, target) == ProjectAll(rest, target);
  }

  /** The value is one the tested column keeps as it is. */
  predicate Suits(t: Relation, test: Test) {
    KeptLiteral(IndexedAffinity(t, test.column), test.value) == test.value
  }

  /** Meaning preservation for selects, every comparison code included: executing the printed text returns
      exactly the projection of the rows that pass the tests read directly, each value taken as its column keeps
      it, and changes nothing. */
  lemma SelectMeaning(st: Store, d: Descriptor, tests: seq<Test>, target: int, now: Value)
    requires Sound(d) && d.table in st.tables && Keyed(st.tables[d.table]) && tests != []
    requires forall i :: 0 <= i < |tests| ==>
      IsTest(d, tests[i]) && Printable(tests[i].value) && Agrees(d, st.tables[d.table], tests[i].column)
    requires target == ALL || Agrees(d, st.tables[d.table], target)
    ensures Exec(st, SelectText(d, tests, target), now) ==
            Done(st, ProjectAll(Filter(st.tables[d.table].rows, MadeTests(st.tables[d.table], tests)), target))
    ensures var t := st.tables[d.table];
            (forall i :: 0 <= i < |tests| ==> tests[i].code <= 2 && Suits(t, tests[i])) ==> MadeTests(t, tests) == tests
  {
    hide Lex, Parse, ParseText, SelectText, Answers, Exec;
    var t := st.tables[d.table];
    SelectRoundTrip(d, tests, target);
    ExecOne(st, SelectText(d, tests, target), SelectStatement(d, tests, target), now);
    AnswersAreFiltered(d, t, t.rows, tests, target);
    forall i | 0 <= i < |tests| ensures Resolves(t, ToConditions(d, tests)[i].column) {
      FindAgreed(d, t, tests[i].column);
    }
    if target != ALL {
      FindAgreed(d, t, target);
    }
  }

  // ---------- what a value can carry ----------

  /** A statement's text before another text runs first, and if it fails nothing more is run. */
  lemma ExecThen(st: Store, a: string, s: Statement, b: string, now: Value)
    requires ParseText(a) == Some(s) && a != "" && a[|a| - 1] == ';'
    ensures Exec(st, a + b, now).store ==
            match Run(st, s, now) case Failed(_, _) => st case Done(st1, _) => Exec(st1, b, now).store
  {
    hide Lex, LexAll, Parse, Tokens, SemiEnd, Run;
    var ts, rest := Lex(a).value, LexAll(b).0;
    LexIsWhole(a);
    LexAllAppend(a, b);
    ParseIsExact(ts);
    OneSemi(s);
    SemiEndPrefix(ts, rest);
    assert (ts + rest)[..|ts|] == ts && (ts + rest)[|ts|..] == rest;
    RunFails(st, s, now);
  }

  /** A select on one column, up to where its text value begins. */
  function BeforeValue(d: Descriptor, column: int, code: nat, target: int): string
    requires IsTest(d, Test(column, TextLit(""), code))
    requires target == ALL || target == ROW_ID || IsColumn(d, target)
  {
    "SELECT " + TargetName(d, target) + " FROM " + d.table + " WHERE( " + ColumnName(d, column) + SYMBOLS[code] + "\""
  }

  /** A value that closes its quoting and its statement, holds a further statement, and opens the same select
      again for what is printed behind it. */
  function Carrying(d: Descriptor, column: int, code: nat, target: int, x: string, text: string, y: string): string
    requires IsTest(d, Test(column, TextLit(""), code))
    requires target == ALL || target == ROW_ID || IsColumn(d, target)
  {
    x + "\" ) ;" + text + BeforeValue(d, column, code, target) + y
  }

  lemma SelectOfText(d: Descriptor, column: int, code: nat, target: int, v: string)
    requires IsTest(d, Test(column, TextLit(v), code))
    requires target == ALL || target == ROW_ID || IsColumn(d, target)
    ensures SelectText(d, [Test(column, TextLit(v), code)], target) ==
            BeforeValue(d, column, code, target) + v + "\" ) ;"
  {
    hide TargetName, ColumnName;
    var name, front := ColumnName(d, column), "SELECT " + TargetName(d, target) + " FROM " + d.table + " WHERE( ";
    assert [Test(column, TextLit(v), code)][1..] == [];
    AroundValue(front, name + SYMBOLS[code], v);
    assert "" + name + SYMBOLS[code] + ("\"" + v + "\"") == name + SYMBOLS[code] + ("\"" + v + "\"");
    assert front + (name + SYMBOLS[code]) == front + name + SYMBOLS[code];
  }

  lemma AroundValue(front: string, inner: string, v: string)
    ensures front + (inner + ("\"" + v + "\"")) + " ) ;" == front + inner + "\"" + v + "\" ) ;"
  {
    assert "\"" + " ) ;" == "\" ) ;";
  }

  /** Why the condition above is needed: for any statement text that parses and ends in its semicolon, the
      select printed with a value that carries it leaves the store as that statement does. */
  lemma ValueCarriesStatement(st: Store, d: Descriptor, column: int, code: nat, target: int,
      x: string, text: string, s: Statement, y: string, now: Value)
    requires Sound(d) && d.table in st.tables && Keyed(st.tables[d.table]) && QuoteFree(x) && QuoteFree(y)
    requires IsTest(d, Test(column, TextLit(""), code)) && Agrees(d, st.tables[d.table], column)
    requires target == ALL || Agrees(d, st.tables[d.table], target)
    requires ParseText(text) == Some(s) && text != "" && text[|text| - 1] == ';'
    ensures var v := Carrying(d, column, code, target, x, text, y);
            Exec(st, SelectText(d, [Test(column, TextLit(v), code)], target), now).store == Run(st, s, now).store
  {
    hide Exec, SelectText, ParseText, Run, Sound, Keyed, Carrying, BeforeValue;
    var tx, ty := [Test(column, TextLit(x), code)], [Test(column, TextLit(y), code)];
    var v := Carrying(d, column, code, target, x, text, y);
    var sx, sy := SelectText(d, tx, target), SelectText(d, ty, target);
    CarriedText(d, column, code, target, x, text, y);
    SelectRoundTrip(d, tx, target);
    SelectMeaning(st, d, tx, target, now);
    ExecOne(st, sx, SelectStatement(d, tx, target), now);
    SelectOfText(d, column, code, target, x);
    assert sx != "" && sx[|sx| - 1] == ';';
    ExecThen(st, sx, SelectStatement(d, tx, target), text + sy, now);
    ExecThen(st, text, s, sy, now);
    RunFails(st, s, now);
    SelectIsReadOnly(Run(st, s, now).store, d, ty, target, now);
  }

  lemma CarriedText(d: Descriptor, column: int, code: nat, target: int, x: string, text: string, y: string)
    requires IsTest(d, Test(column, TextLit(""), code))
    requires target == ALL || target == ROW_ID || IsColumn(d, target)
    ensures SelectText(d, [Test(column, TextLit(Carrying(d, column, code, target, x, text, y)), code)], target) ==
            SelectText(d, [Test(column, TextLit(x), code)], target) +
            (text + SelectText(d, [Test(column, TextLit(y), code)], target))
  {
    hide SelectText, BeforeValue;
    var pre, v := BeforeValue(d, column, code, target), Carrying(d, column, code, target, x, text, y);
    SelectOfText(d, column, code, target, v);
    SelectOfText(d, column, code, target, x);
    SelectOfText(d, column, code, target, y);
    Reassociate(pre, x, "\" ) ;", text, y);
  }

  lemma Reassociate(pre: string, x: string, end: string, text: string, y: string)
    ensures pre + (x + end + text + pre + y) + end == (pre + x + end) + (text + (pre + y + end))
  {
  }

  // ---------- inserts ----------

  /** The row an insert by column/value pairs is meant to add: each column takes the first pair that names
      it, or its default. */
  function PairedCell(pairs: seq<Pair>, column: int, default: Value): Value {
    if pairs == [] then default
    else if pairs[0].0 == column then ToValue(pairs[0].1)
    else PairedCell(pairs[1..], column, default)
  }

  function PairedCells(t: Relation, pairs: seq<Pair>, now: Value): seq<Value> {
    seq(|t.columns|, i requires 0 <= i < |t.columns| =>
      PairedCell(pairs, i, if t.columns[i].stamped then now else Null))
  }

  lemma {:induction false} NamedIsPaired(d: Descriptor, t: Relation, pairs: seq<Pair>, column: nat, default: Value)
    requires Keyed(t) && column < |t.columns|
    requires forall i :: 0 <= i < |pairs| ==> IsColumn(d, pairs[i].0) && Agrees(d, t, pairs[i].0)
    ensures NamedValue(ColumnNames(d, pairs), PairValues(pairs), t.columns[column].name, default) ==
            PairedCell(pairs, column, default)
  {
    if pairs != [] {
      assert ColumnNames(d, pairs)[1..] == ColumnNames(d, pairs[1..]);
      assert PairValues(pairs)[1..] == PairValues(pairs[1..]);
      NamedIsPaired(d, t, pairs[1..], column, default);
    }
  }

  /** Meaning preservation for inserts by column/value pairs: exactly the intended row is appended, under
      the next row id, and nothing else changes. */
  lemma InsertPairsMeaning(st: Store, d: Descriptor, pairs: seq<Pair>, now: Value)
    requires Sound(d) && d.table in st.tables && Keyed(st.tables[d.table]) && |pairs| >= 2
    requires forall i :: 0 <= i < |pairs| ==> IsColumn(d, pairs[i].0) && Agrees(d, st.tables[d.table], pairs[i].0)
    requires AllPrintable(PairValues(pairs))
    ensures Exec(st, InsertPairsText(d, pairs), now) ==
            Done(AppendRow(st, d.table,
              Stored(st.tables[d.table].columns, PairedCells(st.tables[d.table], pairs, now))), [])
  {
    hide Lex, Parse, ParseText, InsertPairsText, Exec;
    var t := st.tables[d.table];
    InsertPairsRoundTrip(d, pairs);
    ExecOne(st, InsertPairsText(d, pairs), PairsStatement(d, pairs), now);
    var names := ColumnNames(d, pairs);
    forall i | 0 <= i < |names| ensures FindColumn(t.columns, names[i]) >= 0 {
      FindAgreed(d, t, pairs[i].0);
    }
    forall i | 0 <= i < |t.columns|
      ensures NewCells(t, names, PairValues(pairs), now)[i] == PairedCells(t, pairs, now)[i]
    {
      NamedIsPaired(d, t, pairs, i, if t.columns[i].stamped then now else Null);
    }
    assert NewCells(t, names, PairValues(pairs), now) == PairedCells(t, pairs, now);
  }

  // ---------- an insert that is misread ----------

  /** Statements only append rows. */
  predicate Grown(st: Store, after: Store, table: string) {
    table in st.tables ==> table in after.tables && st.tables[table].rows <= after.tables[table].rows
  }

  lemma RunGrows(st: Store, s: Statement, now: Value, table: string)
    ensures Grown(st, Run(st, s, now).store, table)
  {
    hide Answers;
  }

  lemma {:induction false} RunAllGrows(st: Store, ts: seq<Token>, whole: bool, now: Value, table: string)
    ensures Grown(st, RunAll(st, ts, whole, now).store, table)
    decreases |ts|
  {
    hide Run, Parse;
    var n := SemiEnd(ts);
    if n == 1 {
      RunAllGrows(st, ts[1..], whole, now, table);
    } else if n > 1 && Parse(ts[..n]).Some? {
      var s := Parse(ts[..n]).value;
      RunGrows(st, s, now, table);
      if Run(st, s, now).Done? {
        RunAllGrows(Run(st, s, now).store, ts[n..], whole, now, table);
      }
    }
  }

  /** The value a column takes from distinct names is the one at its name's place. */
  lemma {:induction false} NamedAt(names: seq<string>, values: seq<Literal>, i: nat, default: Value)
    requires |names| == |values| && i < |names| && Distinct(names)
    ensures NamedValue(names, values, names[i], default) == ToValue(values[i])
  {
    if i > 0 {
      assert names[0] != names[i];
      assert names[1..][i - 1] == names[i];
      NamedAt(names[1..], values[1..], i - 1, default);
    }
  }

  /** A text with a quote is kept as it is, and no other literal is kept as that text. */
  lemma KeptApart(a: Affinity, v: string, w: string)
    requires !QuoteFree(v) && w != v
    ensures Kept(a, Str(v)) == Str(v) && Kept(a, Str(w)) != Str(v)
  {
    QuotedIsNoInteger(v);
  }

  lemma QuotedIsNoInteger(v: string)
    requires !QuoteFree(v)
    ensures AsInteger(v) == None
  {
    DropsKeepQuotes(v);
    var t := DropEndBlanks(DropBlanks(v));
    assert '\"' in t;
    if t[0] == '-' || t[0] == '+' {
      assert '\"' in t[1..] by {
        assert t == [t[0]] + t[1..];
      }
    }
  }

  lemma DropsKeepQuotes(v: string)
    ensures '\"' in v <==> '\"' in DropEndBlanks(DropBlanks(v))
  {
    FrontKeepsQuotes(v);
    EndKeepsQuotes(DropBlanks(v));
  }

  lemma {:induction false} FrontKeepsQuotes(v: string)
    ensures '\"' in v <==> '\"' in DropBlanks(v)
  {
    if v != "" && IsBlank(v[0]) {
      FrontKeepsQuotes(v[1..]);
      assert v == [v[0]] + v[1..];
    }
  }

  lemma {:induction false} EndKeepsQuotes(v: string)
    ensures '\"' in v <==> '\"' in DropEndBlanks(v)
    decreases |v|
  {
    if v != "" && IsBlank(v[|v| - 1]) {
      EndKeepsQuotes(v[..|v| - 1]);
      assert v == v[..|v| - 1] + [v[|v| - 1]];
    }
  }

  /** No two pairs are for the same column. */
  predicate OneEach(pairs: seq<Pair>) {
    forall i, j :: 0 <= i < j < |pairs| ==> pairs[i].0 != pairs[j].0
  }

  lemma NamesAreDistinct(d: Descriptor, pairs: seq<Pair>)
    requires Sound(d) && OneEach(pairs) && forall i :: 0 <= i < |pairs| ==> IsColumn(d, pairs[i].0)
    ensures Distinct(ColumnNames(d, pairs))
  {
    var names := ColumnNames(d, pairs);
    forall i, j | 0 <= i < j < |names| ensures names[i] != names[j] {
      ColumnNamesDiffer(d, pairs[i].0, pairs[j].0);
    }
  }

  lemma {:induction false} PairedAt(pairs: seq<Pair>, i: nat, default: Value)
    requires OneEach(pairs) && i < |pairs|
    ensures PairedCell(pairs, pairs[i].0, default) == ToValue(pairs[i].1)
  {
    if i > 0 {
      assert pairs[0].0 != pairs[i].0 && pairs[1..][i - 1] == pairs[i];
      assert forall a, b :: 0 <= a < b < |pairs[1..]| ==>
        pairs[1..][a] == pairs[a + 1] && pairs[1..][b] == pairs[b + 1];
      PairedAt(pairs[1..], i - 1, default);
    }
  }

  /** A row stored from the right names but another text at one of them is another row. */
  lemma OtherRow(d: Descriptor, t: Relation, pairs: seq<Pair>, values: seq<Literal>, i: nat, now: Value)
    requires Sound(d) && Keyed(t) && OneEach(pairs)
    requires forall j :: 0 <= j < |pairs| ==> IsColumn(d, pairs[j].0) && Agrees(d, t, pairs[j].0)
    requires i < |pairs| == |values| && !Printable(pairs[i].1)
    requires values[i].TextLit? && values[i].t != pairs[i].1.t
    ensures Stored(t.columns, NewCells(t, ColumnNames(d, pairs), values, now)) !=
            Stored(t.columns, PairedCells(t, pairs, now))
  {
    hide Sound, Keyed, Kept, NamedValue, PairedCell;
    var names, c := ColumnNames(d, pairs), pairs[i].0;
    var default := if t.columns[c].stamped then now else Null;
    NamesAreDistinct(d, pairs);
    NamedAt(names, values, i, default);
    PairedAt(pairs, i, default);
    KeptApart(t.columns[c].affinity, pairs[i].1.t, values[i].t);
    assert names[i] == t.columns[c].name;
    assert Stored(t.columns, NewCells(t, names, values, now))[c] == Kept(t.columns[c].affinity, Str(values[i].t));
    assert Stored(t.columns, PairedCells(t, pairs, now))[c] == Kept(t.columns[c].affinity, Str(pairs[i].1.t));
  }

  /** What is executed of a misread insert is not the row that was meant. */
  lemma MisreadStores(st: Store, d: Descriptor, pairs: seq<Pair>, now: Value)
    requires Sound(d) && d.table in st.tables && Keyed(st.tables[d.table]) && |pairs| >= 2 && OneEach(pairs)
    requires forall i :: 0 <= i < |pairs| ==> IsColumn(d, pairs[i].0) && Agrees(d, st.tables[d.table], pairs[i].0)
    requires !AllPrintable(PairValues(pairs))
    ensures var t := st.tables[d.table];
            Exec(st, InsertPairsText(d, pairs), now) !=
            Done(AppendRow(st, d.table, Stored(t.columns, PairedCells(t, pairs, now))), [])
  {
    hide LexAll, InsertPairsText, BeforeToken, Parse, Run, Sound, Keyed, SemiEnd, Stored, PairedCells;
    var names, values := ColumnNames(d, pairs), PairValues(pairs);
    var i := MisreadPairs(d, pairs);
    var (ts, whole) := LexAll(InsertPairsText(d, pairs));
    var front := BeforeToken(d.table, names, values[..i]);
    BeforeTokenHasNoSemi(d.table, names, values[..i]);
    var n := SemiEnd(ts);
    SemiPastFront(front, ts);
    if n > 0 {
      var more := ts[..n][|front| + 1..];
      assert ts[..n] == front + ([ts[|front|]] + more);
      ParseMisread(d.table, names, values[..i], ts[|front|], more);
      if Parse(ts[..n]).Some? {
        MisreadRuns(st, d, pairs, Parse(ts[..n]).value, i, ts[n..], whole, now);
      }
    }
  }

  lemma SemiPastFront(front: seq<Token>, ts: seq<Token>)
    requires front <= ts && Semi !in front && (|ts| > |front| ==> !ts[|front|].Semi?)
    ensures SemiEnd(ts) > 0 ==> SemiEnd(ts) > |front| + 1
    ensures ts == front ==> SemiEnd(ts) == 0
  {
    forall k | 0 <= k < |ts| && k <= |front| ensures !ts[k].Semi? {
      if k < |front| {
        assert ts[k] == front[k] && front[k] in front;
      }
    }
  }

  lemma MisreadRuns(st: Store, d: Descriptor, pairs: seq<Pair>, s: Statement, i: nat, rest: seq<Token>, whole: bool,
      now: Value)
    requires Sound(d) && d.table in st.tables && Keyed(st.tables[d.table]) && OneEach(pairs)
    requires forall j :: 0 <= j < |pairs| ==> IsColumn(d, pairs[j].0) && Agrees(d, st.tables[d.table], pairs[j].0)
    requires i < |pairs| && !Printable(pairs[i].1)
    requires s.Insert? && s.table == d.table && s.columns == Some(ColumnNames(d, pairs)) && |s.values| > i
    requires s.values[i].TextLit? && s.values[i].t != pairs[i].1.t
    ensures var t := st.tables[d.table];
            var meant := AppendRow(st, d.table, Stored(t.columns, PairedCells(t, pairs, now)));
            Run(st, s, now).Done? ==> RunAll(Run(st, s, now).store, rest, whole, now).store != meant
  {
    hide RunAll, Sound, Keyed, Stored, PairedCells, NewCells;
    var t := st.tables[d.table];
    if Run(st, s, now).Done? {
      var st1 := Run(st, s, now).store;
      OtherRow(d, t, pairs, s.values, i, now);
      RunAllGrows(st1, rest, whole, now, d.table);
      var row1 := Row(NextId(t.rows), Stored(t.columns, NewCells(t, ColumnNames(d, pairs), s.values, now)));
      assert st1.tables[d.table].rows == t.rows + [row1];
      assert (t.rows + [row1])[|t.rows|] == row1;
    }
  }

  /** With one pair for each column it names, executing the printed insert appends exactly the intended row if
      and only if no text in it holds a double quote. */
  lemma InsertPairsExact(st: Store, d: Descriptor, pairs: seq<Pair>, now: Value)
    requires Sound(d) && d.table in st.tables && Keyed(st.tables[d.table]) && |pairs| >= 2 && OneEach(pairs)
    requires forall i :: 0 <= i < |pairs| ==> IsColumn(d, pairs[i].0) && Agrees(d, st.tables[d.table], pairs[i].0)
    ensures var t := st.tables[d.table];
            Exec(st, InsertPairsText(d, pairs), now) ==
            Done(AppendRow(st, d.table, Stored(t.columns, PairedCells(t, pairs, now))), []) <==>
              AllPrintable(PairValues(pairs))
  {
    hide Exec, InsertPairsText, Sound, Keyed, Stored, PairedCells;
    if AllPrintable(PairValues(pairs)) {
      InsertPairsMeaning(st, d, pairs, now);
    } else {
      MisreadStores(st, d, pairs, now);
    }
  }

  /** Meaning of a positional insert with any number of values spliced in: it appends the values in order
      when there is one for every stored column, and fails otherwise. */
  lemma InsertMeaning(st: Store, d: Descriptor, v0: Literal, v1: Literal, vs: seq<Literal>, now: Value)
    requires Sound(d) && d.table in st.tables && AllPrintable([v0, v1] + vs)
    ensures ')' in InsertText(d, v0, v1)
    ensures Exec(st, SpliceAll(InsertText(d, v0, v1), vs), now) ==
            if 2 + |vs| == |st.tables[d.table].columns|
            then Done(AppendRow(st, d.table, Stored(st.tables[d.table].columns, Values([v0, v1] + vs))), [])
            else Failed(st, [])
  {
    hide Lex, Parse, ParseText, InsertText, SpliceAll, Run, Exec, Values, AppendRow;
    PrintableParts(v0, v1, vs);
    InsertRoundTrip(d, v0, v1);
    SpliceAllAddsValues(InsertText(d, v0, v1), d.table, None, [v0, v1], vs);
    ExecPositional(st, SpliceAll(InsertText(d, v0, v1), vs), d.table, [v0, v1] + vs, now);
  }

  lemma PrintableParts(v0: Literal, v1: Literal, vs: seq<Literal>)
    requires AllPrintable([v0, v1] + vs)
    ensures Printable(v0) && Printable(v1) && AllPrintable(vs)
  {
    var all := [v0, v1] + vs;
    assert all[0] == v0 && all[1] == v1;
    forall i | 0 <= i < |vs| ensures Printable(vs[i]) {
      assert vs[i] == all[i + 2];
    }
  }

  lemma ExecPositional(st: Store, text: string, table: string, values: seq<Literal>, now: Value)
    requires table in st.tables && ParseText(text) == Some(Insert(table, None, values))
    ensures Exec(st, text, now) ==
            if |values| == |st.tables[table].columns|
            then Done(AppendRow(st, table, Stored(st.tables[table].columns, Values(values))), [])
            else Failed(st, [])
  {
    hide ParseText, Exec;
    ExecOne(st, text, Insert(table, None, values), now);
  }
}
