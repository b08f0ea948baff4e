/**
 Statement builders (hqery.h): descriptors, the texts the builders print, the builders themselves as
 string-accumulating methods, and what those texts mean to the lexer and parser.
 */
module QueryBuilder {
  import opened Core
  import opened Decimal
  import opened SqlLexer
  import opened SqlParser

  datatype Descriptor = Descriptor(table: string, columns: seq<string>)

  datatype QueryDescriptor =
    User | Table | Message | Participate | UserPair | CheckList | Invite | ConnectionRequest

  function DescriptorOf(qd: QueryDescriptor): Descriptor {
    match qd
    case User => Descriptor("user", ["id", "pw"])
    case Table => Descriptor("chatTable", ["host", "participations"])
    case Message => Descriptor("ms", ["tableKey", "sender", "message", "time", "chk"])
    case Participate => Descriptor("part", ["tableKey", "user"])
    case UserPair => Descriptor("userPair", ["user0", "user1"])
    case CheckList => Descriptor("checkList", ["user", "messageArr", "tableIvt", "connctionReq"])
    case Invite => Descriptor("invite", ["target", "tableKey", "sender"])
    case ConnectionRequest => Descriptor("connectionRequest", ["sender", "receiver", "time"])
  }

  const ROW_ID: int := -2
  const ALL: int := -1

  /** What the builders rely on: names that lex as one word, no two alike, none hiding the row id. */
  ghost predicate Sound(d: Descriptor) {
    && IsName(d.table)
    && (forall i :: 0 <= i < |d.columns| ==> IsName(d.columns[i]))
    && Distinct(d.columns)
    && "rowid" !in d.columns
  }

  lemma DescriptorsAreSound(qd: QueryDescriptor)
    ensures Sound(DescriptorOf(qd))
  {
    hide Sound, IsName;
    match qd
    case User => UserNames(); SoundTable("user", ["id", "pw"]);
    case Table => TableNames(); SoundTable("chatTable", ["host", "participations"]);
    case Message => MessageNames(); SoundTable("ms", DescriptorOf(qd).columns);
    case Participate => ParticipateNames(); SoundTable("part", ["tableKey", "user"]);
    case UserPair => PairNames(); SoundTable("userPair", ["user0", "user1"]);
    case CheckList => CheckListNames(); SoundTable("checkList", DescriptorOf(qd).columns);
    case Invite => InviteNames(); SoundTable("invite", DescriptorOf(qd).columns);
    case ConnectionRequest => ConnectionNames(); SoundTable("connectionRequest", DescriptorOf(qd).columns);
  }

  lemma SoundTable(table: string, columns: seq<string>)
    requires IsName(table) && Distinct(columns)
    requires forall i :: 0 <= i < |columns| ==> IsName(columns[i]) && columns[i] != "rowid"
    ensures Sound(Descriptor(table, columns))
  {
  }

  lemma UserNames()
    ensures IsName("user") && IsName("id") && IsName("pw") && Distinct(["id", "pw"])
  {
  }

  lemma TableNames()
    ensures IsName("chatTable") && IsName("host") && IsName("participations") && Distinct(["host", "participations"])
  {
  }

  lemma ParticipateNames()
    ensures IsName("part") && IsName("tableKey") && IsName("user") && Distinct(["tableKey", "user"])
  {
  }

  lemma PairNames()
    ensures IsName("userPair") && IsName("user0") && IsName("user1") && Distinct(["user0", "user1"])
  {
    assert "user0"[4] != "user1"[4];
  }

  lemma MessageNames()
    ensures IsName("ms") && IsName("tableKey") && IsName("sender")
    ensures IsName("message") && IsName("time") && IsName("chk")
    ensures Distinct(["tableKey", "sender", "message", "time", "chk"])
  {
  }

  lemma CheckListNames()
    ensures IsName("checkList") && IsName("user") && IsName("messageArr")
    ensures IsName("tableIvt") && IsName("connctionReq")
    ensures Distinct(["user", "messageArr", "tableIvt", "connctionReq"])
  {
  }

  lemma InviteNames()
    ensures IsName("invite") && IsName("target") && IsName("tableKey") && IsName("sender")
    ensures Distinct(["target", "tableKey", "sender"])
  {
  }

  lemma ConnectionNames()
    ensures IsName("connectionRequest") && IsName("sender") && IsName("receiver") && IsName("time")
    ensures Distinct(["sender", "receiver", "time"])
  {
  }

  /** Comparison symbols, indexed by code. */
  const SYMBOLS: seq<string> := [">", ">=", "==", "<", "<="]

  predicate IsColumn(d: Descriptor, i: int) {
    0 <= i < |d.columns|
  }

  function ColumnName(d: Descriptor, i: int): string
    requires i == ROW_ID || IsColumn(d, i)
  {
    if i == ROW_ID then "rowid" else d.columns[i]
  }

  function TargetName(d: Descriptor, target: int): string
    requires target == ALL || target == ROW_ID || IsColumn(d, target)
  {
    if target == ALL then "*" else ColumnName(d, target)
  }

  /** `to_string_s`: integers in decimal, strings between double quotes and otherwise untouched. */
  function ToStringS(v: Literal): string {
    match v
    case IntLit(n) => OfInt(n)
    case TextLit(t) => "\"" + t + "\""
  }

  predicate Printable(v: Literal) {
    v.TextLit? ==> QuoteFree(v.t)
  }

  predicate AllPrintable(vs: seq<Literal>) {
    forall i :: 0 <= i < |vs| ==> Printable(vs[i])
  }

  type Pair = (int, Literal)

  /** One condition of a select: column, value and comparison code. */
  datatype Test = Test(column: int, value: Literal, code: nat)

  predicate IsTest(d: Descriptor, t: Test) {
    (t.column == ROW_ID || IsColumn(d, t.column)) && t.code < |SYMBOLS|
  }

  function ColumnNames(d: Descriptor, pairs: seq<Pair>): (names: seq<string>)
    requires forall i :: 0 <= i < |pairs| ==> IsColumn(d, pairs[i].0)
  {
    seq(|pairs|, i requires 0 <= i < |pairs| && IsColumn(d, pairs[i].0) => d.columns[pairs[i].0])
  }

  function PairValues(pairs: seq<Pair>): seq<Literal> {
    seq(|pairs|, i requires 0 <= i < |pairs| => pairs[i].1)
  }

  function Printed(values: seq<Literal>): seq<string> {
    seq(|values|, i requires 0 <= i < |values| => ToStringS(values[i]))
  }

  /** Appends each item after a comma. */
  function AppendEach(acc: string, items: seq<string>): string
    decreases |items|
  {
    if items == [] then acc else AppendEach(acc + "," + items[0], items[1..])
  }

  /** Appends a list the way the builders do: a wide comma after the first item, bare ones after that. */
  function AppendList(acc: string, items: seq<string>): string
    requires |items| >= 2
  {
    AppendEach(acc + items[0] + " , " + items[1], items[2..])
  }

  lemma AppendTwo(acc: string, a: string, b: string)
    ensures AppendEach(acc, []) == acc
    ensures AppendEach(acc, [a]) == acc + "," + a
    ensures AppendEach(acc, [a, b]) == acc + "," + a + "," + b
  {
    assert [a][1..] == [] && [a, b][1..] == [b] && [b][1..] == [];
    assert AppendEach(acc, [a, b]) == AppendEach(acc + "," + a, [b]);
  }

  function InsertPairsText(d: Descriptor, pairs: seq<Pair>): string
    requires |pairs| >= 2 && forall i :: 0 <= i < |pairs| ==> IsColumn(d, pairs[i].0)
  {
    AppendList(
      AppendList("INSERT INTO " + d.table + " (", ColumnNames(d, pairs)) + ") VALUES (",
      Printed(PairValues(pairs))) + ");"
  }

  function InsertText(d: Descriptor, v0: Literal, v1: Literal): string {
    "INSERT INTO " + d.table + " VALUES( " + ToStringS(v0) + "," + ToStringS(v1) + ");"
  }

  function AppendTest(acc: string, d: Descriptor, t: Test): string
    requires IsTest(d, t)
  {
    acc + ColumnName(d, t.column) + SYMBOLS[t.code] + ToStringS(t.value)
  }

  function AppendTests(acc: string, d: Descriptor, tests: seq<Test>): string
    requires forall i :: 0 <= i < |tests| ==> IsTest(d, tests[i])
    decreases |tests|
  {
    if tests == [] then acc else AppendTests(AppendTest(acc + " AND ", d, tests[0]), d, tests[1..])
  }

  function TestsText(d: Descriptor, tests: seq<Test>): string
    requires tests != [] && forall i :: 0 <= i < |tests| ==> IsTest(d, tests[i])
  {
    AppendTests(AppendTest("", d, tests[0]), d, tests[1..])
  }

  function SelectText(d: Descriptor, tests: seq<Test>, target: int): string
    requires tests != [] && forall i :: 0 <= i < |tests| ==> IsTest(d, tests[i])
    requires target == ALL || target == ROW_ID || IsColumn(d, target)
  {
    "SELECT " + TargetName(d, target) + " FROM " + d.table + " WHERE( " + TestsText(d, tests) + " ) ;"
  }

  // ---------- the builders ----------

  method InsertQueryWithPair2(qd: QueryDescriptor, a0: Pair, a1: Pair) returns (query: string)
    requires IsColumn(DescriptorOf(qd), a0.0) && IsColumn(DescriptorOf(qd), a1.0)
    ensures query == InsertPairsText(DescriptorOf(qd), [a0, a1])
  {
    query := "INSERT INTO ";
    var cont := DescriptorOf(qd);
    query := query + cont.table;
    query := query + " (";
    query := query + cont.columns[a0.0];
    query := query + " , ";
    query := query + cont.columns[a1.0];
    query := query + ") VALUES (";
    query := query + ToStringS(a0.1);
    query := query + " , ";
    query := query + ToStringS(a1.1);
    query := query + ");";
    assert ColumnNames(cont, [a0, a1]) == [cont.columns[a0.0], cont.columns[a1.0]];
    assert Printed(PairValues([a0, a1])) == [ToStringS(a0.1), ToStringS(a1.1)];
  }

  /** The string/string specialisation of query.cpp, which prints what the generic builder prints. */
  method InsertQueryWithStrings(qd: QueryDescriptor, a0: (int, string), a1: (int, string)) returns (query: string)
    requires IsColumn(DescriptorOf(qd), a0.0) && IsColumn(DescriptorOf(qd), a1.0)
    ensures query == InsertPairsText(DescriptorOf(qd), [(a0.0, TextLit(a0.1)), (a1.0, TextLit(a1.1))])
  {
    query := "INSERT INTO ";
    var cont := DescriptorOf(qd);
    query := query + cont.table;
    query := query + " (";
    query := query + cont.columns[a0.0];
    query := query + " , ";
    query := query + cont.columns[a1.0];
    query := query + ") VALUES (";
    query := query + ToStringS(TextLit(a0.1));
    query := query + " , ";
    query := query + ToStringS(TextLit(a1.1));
    query := query + ");";
    ghost var pairs := [(a0.0, TextLit(a0.1)), (a1.0, TextLit(a1.1))];
    assert ColumnNames(cont, pairs) == [cont.columns[a0.0], cont.columns[a1.0]];
    assert Printed(PairValues(pairs)) == [ToStringS(TextLit(a0.1)), ToStringS(TextLit(a1.1))];
  }

  method InsertQueryWithPair3(qd: QueryDescriptor, a0: Pair, a1: Pair, a2: Pair) returns (query: string)
    requires IsColumn(DescriptorOf(qd), a0.0) && IsColumn(DescriptorOf(qd), a1.0) && IsColumn(DescriptorOf(qd), a2.0)
    ensures query == InsertPairsText(DescriptorOf(qd), [a0, a1, a2])
  {
    query := "INSERT INTO ";
    var cont := DescriptorOf(qd);
    query := query + cont.table;
    query := query + " (";
    query := query + cont.columns[a0.0];
    query := query + " , ";
    query := query + cont.columns[a1.0];
    query := query + ",";
    query := query + cont.columns[a2.0];
    query := query + ") VALUES (";
    query := query + ToStringS(a0.1);
    query := query + " , ";
    query := query + ToStringS(a1.1);
    query := query + ",";
    query := query + ToStringS(a2.1);
    query := query + ");";
    ghost var names := [cont.columns[a0.0], cont.columns[a1.0], cont.columns[a2.0]];
    ghost var values := [ToStringS(a0.1), ToStringS(a1.1), ToStringS(a2.1)];
    assert ColumnNames(cont, [a0, a1, a2]) == names && names[2..] == [names[2]] && names[3..] == [];
    assert Printed(PairValues([a0, a1, a2])) == values && values[2..] == [values[2]];
    ghost var acc := "INSERT INTO " + cont.table + " (" + names[0] + " , " + names[1];
    AppendTwo(acc, names[2], "");
    AppendTwo(AppendEach(acc, [names[2]]) + ") VALUES (" + values[0] + " , " + values[1], values[2], "");
  }

  method InsertQueryWithPair4(qd: QueryDescriptor, a0: Pair, a1: Pair, a2: Pair, a3: Pair) returns (query: string)
    requires IsColumn(DescriptorOf(qd), a0.0) && IsColumn(DescriptorOf(qd), a1.0)
    requires IsColumn(DescriptorOf(qd), a2.0) && IsColumn(DescriptorOf(qd), a3.0)
    ensures query == InsertPairsText(DescriptorOf(qd), [a0, a1, a2, a3])
  {
    query := "INSERT INTO ";
    var cont := DescriptorOf(qd);
    query := query + cont.table;
    query := query + " (";
    query := query + cont.columns[a0.0];
    query := query + " , ";
    query := query + cont.columns[a1.0];
    query := query + ",";
    query := query + cont.columns[a2.0];
    query := query + ",";
    query := query + cont.columns[a3.0];
    query := query + ") VALUES (";
    query := query + ToStringS(a0.1);
    query := query + " , ";
    query := query + ToStringS(a1.1);
    query := query + ",";
    query := query + ToStringS(a2.1);
    query := query + ",";
    query := query + ToStringS(a3.1);
    query := query + ");";
    ghost var names := [cont.columns[a0.0], cont.columns[a1.0], cont.columns[a2.0], cont.columns[a3.0]];
    ghost var values := [ToStringS(a0.1), ToStringS(a1.1), ToStringS(a2.1), ToStringS(a3.1)];
    assert ColumnNames(cont, [a0, a1, a2, a3]) == names;
    assert names[2..] == [names[2], names[3]];
    assert Printed(PairValues([a0, a1, a2, a3])) == values && values[2..] == [values[2], values[3]];
    ghost var acc := "INSERT INTO " + cont.table + " (" + names[0] + " , " + names[1];
    AppendTwo(acc, names[2], names[3]);
    AppendTwo(AppendEach(acc, names[2..]) + ") VALUES (" + values[0] + " , " + values[1], values[2], values[3]);
  }

  method InsertQuery(qd: QueryDescriptor, a0: Literal, a1: Literal) returns (s: string)
    ensures s == InsertText(DescriptorOf(qd), a0, a1)
  {
    var cont := DescriptorOf(qd);
    s := "INSERT INTO ";
    s := s + cont.table;
    s := s + " ";
    s := s + "VALUES";
    s := s + "( ";
    assert s == "INSERT INTO " + cont.table + " VALUES( ";
    s := s + ToStringS(a0);
    s := s + ",";
    s := s + ToStringS(a1);
    s := s + ");";
  }

  method SelectQuery1(qd: QueryDescriptor, a0: Pair, e0: nat, target: int) returns (s: string)
    requires IsTest(DescriptorOf(qd), Test(a0.0, a0.1, e0))
    requires target == ALL || target == ROW_ID || IsColumn(DescriptorOf(qd), target)
    ensures s == SelectText(DescriptorOf(qd), [Test(a0.0, a0.1, e0)], target)
  {
    var qdsc := DescriptorOf(qd);
    var tagt, cond;
    if target == -1 { tagt := "*"; }
    else if target == -2 { tagt := "rowid"; }
    else { tagt := qdsc.columns[target]; }
    if a0.0 != -2 { cond := qdsc.columns[a0.0]; }
    else { cond := "rowid"; }
    cond := cond + SYMBOLS[e0];
    cond := cond + ToStringS(a0.1);
    assert cond == TestsText(qdsc, [Test(a0.0, a0.1, e0)]) by {
      assert "" + ColumnName(qdsc, a0.0) == ColumnName(qdsc, a0.0);
    }
    s := "SELECT ";
    s := s + tagt;
    s := s + " FROM ";
    s := s + qdsc.table;
    s := s + " WHERE( ";
    s := s + cond;
    s := s + " ) ;";
  }

  method SelectQuery2(qd: QueryDescriptor, a0: Pair, a1: Pair, e0: nat, e1: nat, target: int) returns (s: string)
    requires IsTest(DescriptorOf(qd), Test(a0.0, a0.1, e0)) && IsTest(DescriptorOf(qd), Test(a1.0, a1.1, e1))
    requires target == ALL || target == ROW_ID || IsColumn(DescriptorOf(qd), target)
    ensures s == SelectText(DescriptorOf(qd), [Test(a0.0, a0.1, e0), Test(a1.0, a1.1, e1)], target)
  {
    var qdsc := DescriptorOf(qd);
    var tagt, tagt0, tagt1, cond;
    if a0.0 == ROW_ID { tagt0 := "rowid"; }
    else { tagt0 := qdsc.columns[a0.0]; }
    if a1.0 == ROW_ID { tagt1 := "rowid"; }
    else { tagt1 := qdsc.columns[a1.0]; }
    if target == -1 { tagt := "*"; }
    else if target == -2 { tagt := "rowid"; }
    else { tagt := qdsc.columns[target]; }
    cond := tagt0;
    cond := cond + SYMBOLS[e0];
    cond := cond + ToStringS(a0.1);
    cond := cond + " AND ";
    cond := cond + tagt1;
    cond := cond + SYMBOLS[e1];
    cond := cond + ToStringS(a1.1);
    ghost var tests := [Test(a0.0, a0.1, e0), Test(a1.0, a1.1, e1)];
    assert cond == TestsText(qdsc, tests) by {
      assert "" + ColumnName(qdsc, a0.0) == ColumnName(qdsc, a0.0);
      assert tests[1..] == [tests[1]] && [tests[1]][1..] == [];
      var acc := AppendTest("", qdsc, tests[0]);
      assert AppendTests(acc, qdsc, [tests[1]]) == AppendTests(AppendTest(acc + " AND ", qdsc, tests[1]), qdsc, []);
    }
    s := "SELECT ";
    s := s + tagt;
    s := s + " FROM ";
    s := s + qdsc.table;
    s := s + " WHERE( ";
    s := s + cond;
    s := s + " ) ;";
  }

  // ---------- what the printed texts lex and parse to ----------

  lemma LexLiteral(v: Literal)
    requires Printable(v)
    ensures Lex(ToStringS(v)) == Some([LiteralToken(v)])
    ensures var s := ToStringS(v); s != "" && (s[0] == '-' || s[0] == '\"' || IsDigit(s[0]))
  {
    match v
    case IntLit(n) => LexInt(n);
    case TextLit(t) => QuotingIsFaithful(t);
  }

  /** Blanks and punctuation lex one character at a time. */
  lemma LexMark(c: char)
    requires c == ' ' || Punctuation(c).Some?
    ensures Lex([c]) == Some(if c == ' ' then [] else [Punctuation(c).value])
  {
    if c == ' ' {
      assert [c][1..] == "";
    } else {
      LexSingle([c], Punctuation(c).value);
    }
  }

  function MarkTokens(c: char): seq<Token>
    requires c == ' ' || Punctuation(c).Some?
  {
    if c == ' ' then [] else [Punctuation(c).value]
  }

  lemma MarkIsPlain(c: char)
    requires c == ' ' || Punctuation(c).Some?
    ensures !IsAlnum(c) && !IsOpChar(c) && c != '\"'
  {
  }

  lemma LexMarks(s: string, ts: seq<Token>)
    requires |s| == 2 && forall i :: 0 <= i < 2 ==> s[i] == ' ' || Punctuation(s[i]).Some?
    requires ts == MarkTokens(s[0]) + MarkTokens(s[1])
    ensures Lex(s) == Some(ts)
  {
    LexMark(s[0]);
    LexMark(s[1]);
    MarkIsPlain(s[0]);
    LexAppend([s[0]], [s[1]]);
    assert [s[0]] + [s[1]] == s;
  }

  /** A keyword between two texts that keep clear of it. */
  lemma LexAround(pre: string, tp: seq<Token>, w: string, post: string, tq: seq<Token>)
    requires Lex(pre) == Some(tp) && Lex(post) == Some(tq) && IsName(w)
    requires Apart(pre, w) && Apart(w, post)
    ensures Lex(pre + w + post) == Some(tp + [Word(w)] + tq)
  {
    LexName(w);
    LexSnoc(pre, tp, w, [Word(w)]);
    LexSnoc(pre + w, tp + [Word(w)], post, tq);
  }

  /** A keyword with two characters of blanks and punctuation on each side, or none. */
  lemma LexBetween(pre: string, w: string, post: string, tp: seq<Token>, tq: seq<Token>, all: string, ts: seq<Token>)
    requires Lex(pre) == Some(tp) && Lex(post) == Some(tq) && IsName(w)
    requires Apart(pre, w) && Apart(w, post)
    requires all == pre + w + post && ts == tp + [Word(w)] + tq
    ensures Lex(all) == Some(ts)
  {
    hide Lex;
    LexAround(pre, tp, w, post, tq);
  }

  lemma LexPairOfMarks()
    ensures Lex(" (") == Some([LParen]) && Lex("( ") == Some([LParen])
    ensures Lex(") ") == Some([RParen]) && Lex(" )") == Some([RParen])
    ensures Lex(" ;") == Some([Semi]) && Lex(" ,") == Some([Comma])
    ensures Lex(");") == Some([RParen, Semi])
  {
    hide Lex;
    LexMarks(" (", [LParen]);
    LexMarks("( ", [LParen]);
    LexMarks(") ", [RParen]);
    LexMarks(" )", [RParen]);
    LexMarks(" ;", [Semi]);
    LexMarks(" ,", [Comma]);
    LexMarks(");", [RParen, Semi]);
  }

  /** The fixed parts of the printed statements. */
  lemma LexInsertParts()
    ensures Lex("INSERT INTO ") == Some([INSERT, INTO])
    ensures Lex(" (") == Some([LParen])
    ensures Lex(") VALUES (") == Some([RParen, VALUES, LParen])
    ensures Lex(" VALUES( ") == Some([VALUES, LParen])
    ensures Lex(",") == Some([Comma]) && Lex(" , ") == Some([Comma])
    ensures Lex(");") == Some([RParen, Semi])
  {
    hide Lex;
    LexPairOfMarks();
    LexMark(' ');
    LexMark(',');
    LexBlankText();
    LexBetween("", "INSERT", " ", [], [], "INSERT ", [INSERT]);
    LexBetween("INSERT ", "INTO", " ", [INSERT], [], "INSERT INTO ", [INSERT, INTO]);
    LexBetween(") ", "VALUES", " (", [RParen], [LParen], ") VALUES (", [RParen, VALUES, LParen]);
    LexBetween(" ", "VALUES", "( ", [], [LParen], " VALUES( ", [VALUES, LParen]);
    LexSnoc(" ,", [Comma], " ", []);
    assert " ," + " " == " , " && [Comma] + [] == [Comma];
  }

  lemma LexBlankText()
    ensures Lex("") == Some([]) && Lex(" ") == Some([])
  {
    LexMark(' ');
  }

  lemma LexSelectParts()
    ensures Lex("SELECT ") == Some([SELECT]) && Lex(" FROM ") == Some([FROM])
    ensures Lex(" WHERE( ") == Some([WHERE, LParen]) && Lex(" ) ;") == Some([RParen, Semi])
    ensures Lex(" AND ") == Some([AND]) && Lex("*") == Some([Star])
  {
    hide Lex;
    LexPairOfMarks();
    LexMark('*');
    LexBlankText();
    LexBetween("", "SELECT", " ", [], [], "SELECT ", [SELECT]);
    LexBetween(" ", "FROM", " ", [], [], " FROM ", [FROM]);
    LexBetween(" ", "WHERE", "( ", [], [LParen], " WHERE( ", [WHERE, LParen]);
    LexSnoc(" )", [RParen], " ;", [Semi]);
    assert " )" + " ;" == " ) ;" && [RParen] + [Semi] == [RParen, Semi];
    LexBetween(" ", "AND", " ", [], [], " AND ", [AND]);
  }

  lemma LexSymbol(code: nat)
    requires code < |SYMBOLS|
    ensures Lex(SYMBOLS[code]) == Some([Op(SYMBOLS[code])])
    ensures SYMBOLS[code] != "" && IsOpChar(SYMBOLS[code][0]) && IsOpChar(SYMBOLS[code][|SYMBOLS[code]| - 1])
  {
    var s := SYMBOLS[code];
    assert s[..|s|] == s;
    LexSingle(s, Op(s));
  }

  lemma {:induction false} LexEach(acc: string, front: seq<Token>, done: seq<Token>,
      items: seq<string>, toks: seq<Token>)
    requires done != [] && Lex(acc) == Some(front + ItemTokens(done))
    requires |items| == |toks| && forall i :: 0 <= i < |items| ==> items[i] != "" && Lex(items[i]) == Some([toks[i]])
    ensures Lex(AppendEach(acc, items)) == Some(front + ItemTokens(done + toks))
    decreases |items|
  {
    hide Lex;
    if items == [] {
      assert done + toks == done;
    } else {
      LexMark(',');
      LexSnoc(acc, front + ItemTokens(done), ",", [Comma]);
      LexSnoc(acc + ",", front + ItemTokens(done) + [Comma], items[0], [toks[0]]);
      ItemTokensSnoc(done, toks[0]);
      assert front + ItemTokens(done) + [Comma] + [toks[0]] == front + ItemTokens(done + [toks[0]]);
      LexEach(acc + "," + items[0], front, done + [toks[0]], items[1..], toks[1..]);
      assert done + [toks[0]] + toks[1..] == done + toks;
    }
  }

  lemma LexList(acc: string, front: seq<Token>, items: seq<string>, toks: seq<Token>)
    requires Lex(acc) == Some(front) && acc != "" && acc[|acc| - 1] == '('
    requires 2 <= |items| == |toks|
    requires forall i :: 0 <= i < |items| ==> items[i] != "" && Lex(items[i]) == Some([toks[i]])
    ensures Lex(AppendList(acc, items)) == Some(front + ItemTokens(toks))
  {
    hide Lex;
    LexInsertParts();
    LexSnoc(acc, front, items[0], [toks[0]]);
    LexSnoc(acc + items[0], front + [toks[0]], " , ", [Comma]);
    LexSnoc(acc + items[0] + " , ", front + [toks[0]] + [Comma], items[1], [toks[1]]);
    assert front + [toks[0]] + [Comma] + [toks[1]] == front + ItemTokens([toks[0], toks[1]]);
    LexEach(acc + items[0] + " , " + items[1], front, [toks[0], toks[1]], items[2..], toks[2..]);
    assert [toks[0], toks[1]] + toks[2..] == toks;
  }

  function PairsStatement(d: Descriptor, pairs: seq<Pair>): Statement
    requires forall i :: 0 <= i < |pairs| ==> IsColumn(d, pairs[i].0)
  {
    Insert(d.table, Some(ColumnNames(d, pairs)), PairValues(pairs))
  }

  lemma LexPrinted(values: seq<Literal>)
    requires AllPrintable(values)
    ensures forall i :: 0 <= i < |values| ==>
      Printed(values)[i] != "" && Lex(Printed(values)[i]) == Some([Literals(values)[i]])
  {
    forall i | 0 <= i < |values|
      ensures Printed(values)[i] != "" && Lex(Printed(values)[i]) == Some([Literals(values)[i]])
    {
      LexLiteral(values[i]);
    }
  }

  lemma LexNames(names: seq<string>)
    requires forall i :: 0 <= i < |names| ==> IsName(names[i])
    ensures forall i :: 0 <= i < |names| ==> names[i] != "" && Lex(names[i]) == Some([Words(names)[i]])
  {
    forall i | 0 <= i < |names| ensures names[i] != "" && Lex(names[i]) == Some([Words(names)[i]]) {
      LexName(names[i]);
    }
  }

  lemma LexPairs(d: Descriptor, names: seq<string>, values: seq<string>,
      nameTokens: seq<Token>, valueTokens: seq<Token>)
    requires IsName(d.table) && 2 <= |names| == |nameTokens| && 2 <= |values| == |valueTokens|
    requires forall i :: 0 <= i < |names| ==> names[i] != "" && Lex(names[i]) == Some([nameTokens[i]])
    requires forall i :: 0 <= i < |values| ==> values[i] != "" && Lex(values[i]) == Some([valueTokens[i]])
    ensures Lex(AppendList(AppendList("INSERT INTO " + d.table + " (", names) + ") VALUES (", values) + ");") ==
            Some([INSERT, INTO] + [Word(d.table)] + [LParen] + ItemTokens(nameTokens) + [RParen, VALUES, LParen] +
                 ItemTokens(valueTokens) + [RParen, Semi])
  {
    hide Lex, AppendList, ItemTokens;
    LexInsertParts();
    LexName(d.table);
    var t0 := [INSERT, INTO] + [Word(d.table)];
    LexSnoc("INSERT INTO ", [INSERT, INTO], d.table, [Word(d.table)]);
    LexSnoc("INSERT INTO " + d.table, t0, " (", [LParen]);
    var s1, t1 := AppendList("INSERT INTO " + d.table + " (", names), t0 + [LParen] + ItemTokens(nameTokens);
    LexList("INSERT INTO " + d.table + " (", t0 + [LParen], names, nameTokens);
    LexSnoc(s1, t1, ") VALUES (", [RParen, VALUES, LParen]);
    LexList(s1 + ") VALUES (", t1 + [RParen, VALUES, LParen], values, valueTokens);
    LexSnoc(AppendList(s1 + ") VALUES (", values), t1 + [RParen, VALUES, LParen] + ItemTokens(valueTokens),
      ");", [RParen, Semi]);
  }

  /** An insert printed from column/value pairs parses back to those columns and values. */
  lemma ParsePairs(d: Descriptor, pairs: seq<Pair>)
    requires Sound(d) && |pairs| >= 2 && forall i :: 0 <= i < |pairs| ==> IsColumn(d, pairs[i].0)
    requires AllPrintable(PairValues(pairs))
    ensures ParseText(InsertPairsText(d, pairs)) == Some(PairsStatement(d, pairs))
  {
    hide Lex, ItemTokens, AppendList, Parse;
    var stmt := PairsStatement(d, pairs);
    var names, values := Words(stmt.columns.value), Literals(stmt.values);
    LexNames(stmt.columns.value);
    LexPrinted(stmt.values);
    LexPairs(d, stmt.columns.value, Printed(stmt.values), names, values);
    assert [INSERT, INTO] + [Word(d.table)] == [INSERT, INTO, Word(d.table)];
    assert [INSERT, INTO, Word(d.table)] + [LParen] + ItemTokens(names) + [RParen, VALUES, LParen] +
           ItemTokens(values) + [RParen, Semi]
        == Tokens(stmt);
    ParseTokens(stmt);
  }

  lemma LexPositional(d: Descriptor, s0: string, s1: string, a: Token, b: Token)
    requires IsName(d.table) && s0 != "" && s1 != "" && Lex(s0) == Some([a]) && Lex(s1) == Some([b])
    ensures Lex("INSERT INTO " + d.table + " VALUES( " + s0 + "," + s1 + ");") ==
            Some([INSERT, INTO] + [Word(d.table)] + [VALUES, LParen] + [a] + [Comma] + [b] + [RParen, Semi])
  {
    hide Lex;
    LexInsertParts();
    LexName(d.table);
    var s, t := "INSERT INTO " + d.table, [INSERT, INTO] + [Word(d.table)];
    LexSnoc("INSERT INTO ", [INSERT, INTO], d.table, [Word(d.table)]);
    LexSnoc(s, t, " VALUES( ", [VALUES, LParen]);
    LexSnoc(s + " VALUES( ", t + [VALUES, LParen], s0, [a]);
    LexSnoc(s + " VALUES( " + s0, t + [VALUES, LParen] + [a], ",", [Comma]);
    LexSnoc(s + " VALUES( " + s0 + ",", t + [VALUES, LParen] + [a] + [Comma], s1, [b]);
    LexSnoc(s + " VALUES( " + s0 + "," + s1, t + [VALUES, LParen] + [a] + [Comma] + [b], ");", [RParen, Semi]);
  }

  /** A positional insert parses back to its values. */
  lemma ParsePositional(d: Descriptor, v0: Literal, v1: Literal)
    requires IsName(d.table) && Printable(v0) && Printable(v1)
    ensures ParseText(InsertText(d, v0, v1)) == Some(Insert(d.table, None, [v0, v1]))
  {
    hide Lex, Parse;
    LexLiteral(v0);
    LexLiteral(v1);
    var a, b, stmt := LiteralToken(v0), LiteralToken(v1), Insert(d.table, None, [v0, v1]);
    LexPositional(d, ToStringS(v0), ToStringS(v1), a, b);
    assert Literals([v0, v1]) == [a, b] && [a, b][1..] == [b];
    assert ItemTokens([a, b]) == [a, Comma, b];
    assert [INSERT, INTO] + [Word(d.table)] + [VALUES, LParen] + [a] + [Comma] + [b] + [RParen, Semi] == Tokens(stmt);
    ParseTokens(stmt);
  }

  function ToCondition(d: Descriptor, t: Test): Condition
    requires IsTest(d, t)
  {
    Condition(ColumnName(d, t.column), SYMBOLS[t.code], t.value)
  }

  function ToConditions(d: Descriptor, tests: seq<Test>): seq<Condition>
    requires forall i :: 0 <= i < |tests| ==> IsTest(d, tests[i])
  {
    seq(|tests|, i requires 0 <= i < |tests| && IsTest(d, tests[i]) => ToCondition(d, tests[i]))
  }

  function SelectStatement(d: Descriptor, tests: seq<Test>, target: int): Statement
    requires forall i :: 0 <= i < |tests| ==> IsTest(d, tests[i])
    requires target == ALL || target == ROW_ID || IsColumn(d, target)
  {
    Select(if target == ALL then AllColumns else OneColumn(ColumnName(d, target)), d.table, ToConditions(d, tests))
  }

  lemma LexColumn(d: Descriptor, i: int)
    requires Sound(d) && (i == ROW_ID || IsColumn(d, i))
    ensures var name := ColumnName(d, i);
            name != "" && Lex(name) == Some([Word(name)]) && IsAlnum(name[0]) && IsAlnum(name[|name| - 1])
  {
    var name := ColumnName(d, i);
    assert IsName("rowid");
    assert IsName(name);
    LexName(name);
    assert IsAlnum(name[0]) && IsAlnum(name[|name| - 1]);
  }

  lemma LexTest(acc: string, ta: seq<Token>, d: Descriptor, t: Test)
    requires Sound(d) && IsTest(d, t) && Printable(t.value)
    requires Lex(acc) == Some(ta) && (acc == "" || acc[|acc| - 1] == ' ')
    ensures Lex(AppendTest(acc, d, t)) == Some(ta + OneCondition(ToCondition(d, t)))
  {
    hide Lex, Sound, ColumnName;
    var name, symbol := ColumnName(d, t.column), SYMBOLS[t.code];
    LexColumn(d, t.column);
    LexSymbol(t.code);
    LexLiteral(t.value);
    LexTestParts(acc, ta, name, symbol, ToStringS(t.value), LiteralToken(t.value));
    assert ta + [Word(name)] + [Op(symbol)] + [LiteralToken(t.value)] == ta + OneCondition(ToCondition(d, t));
  }

  lemma JoinEnds(a: string, b: string)
    requires b != ""
    ensures a + b != "" && (a + b)[|a + b| - 1] == b[|b| - 1]
  {
  }

  lemma LexTestParts(acc: string, ta: seq<Token>, name: string, symbol: string, value: string, v: Token)
    requires Lex(acc) == Some(ta) && (acc == "" || acc[|acc| - 1] == ' ')
    requires name != "" && Lex(name) == Some([Word(name)]) && IsAlnum(name[0]) && IsAlnum(name[|name| - 1])
    requires symbol != "" && Lex(symbol) == Some([Op(symbol)]) && IsOpChar(symbol[0]) && IsOpChar(symbol[|symbol| - 1])
    requires value != "" && Lex(value) == Some([v]) && (value[0] == '-' || value[0] == '\"' || IsDigit(value[0]))
    ensures Lex(acc + name + symbol + value) == Some(ta + [Word(name)] + [Op(symbol)] + [v])
  {
    hide Lex;
    LexSnoc(acc, ta, name, [Word(name)]);
    JoinEnds(acc, name);
    JoinEnds(acc + name, symbol);
    LexSnoc(acc + name, ta + [Word(name)], symbol, [Op(symbol)]);
    LexSnoc(acc + name + symbol, ta + [Word(name)] + [Op(symbol)], value, [v]);
  }

  lemma {:induction false} LexTests(acc: string, done: seq<Condition>, d: Descriptor, tests: seq<Test>)
    requires Sound(d) && (forall i :: 0 <= i < |tests| ==> IsTest(d, tests[i]) && Printable(tests[i].value))
    requires done != [] && Lex(acc) == Some(ConditionTokens(done))
    ensures Lex(AppendTests(acc, d, tests)) == Some(ConditionTokens(done + ToConditions(d, tests)))
    decreases |tests|
  {
    hide Lex, ConditionTokens, ToCondition, AppendTest, Sound, Printable;
    if tests == [] {
      assert done + ToConditions(d, tests) == done;
    } else {
      LexSelectParts();
      LexSnoc(acc, ConditionTokens(done), " AND ", [AND]);
      LexTest(acc + " AND ", ConditionTokens(done) + [AND], d, tests[0]);
      var c := ToCondition(d, tests[0]);
      ConditionTokensSnoc(done, c);
      LexTests(AppendTest(acc + " AND ", d, tests[0]), done + [c], d, tests[1..]);
      assert done + [c] + ToConditions(d, tests[1..]) == done + ToConditions(d, tests);
    }
  }

  lemma LexAllTests(d: Descriptor, tests: seq<Test>)
    requires Sound(d) && tests != []
    requires forall i :: 0 <= i < |tests| ==> IsTest(d, tests[i]) && Printable(tests[i].value)
    ensures Lex(TestsText(d, tests)) == Some(ConditionTokens(ToConditions(d, tests)))
  {
    hide Lex, Sound, Printable, AppendTest, ToCondition;
    var c := ToCondition(d, tests[0]);
    LexBlankText();
    LexTest("", [], d, tests[0]);
    assert ConditionTokens([c]) == [] + OneCondition(c);
    LexTests(AppendTest("", d, tests[0]), [c], d, tests[1..]);
    assert [c] + ToConditions(d, tests[1..]) == ToConditions(d, tests);
  }

  lemma LexSelect(d: Descriptor, name: string, target: Token, tests: string, ts: seq<Token>)
    requires IsName(d.table) && name != "" && Lex(name) == Some([target]) && Lex(tests) == Some(ts)
    ensures Lex("SELECT " + name + " FROM " + d.table + " WHERE( " + tests + " ) ;") ==
            Some([SELECT] + [target] + [FROM] + [Word(d.table)] + [WHERE, LParen] + ts + [RParen, Semi])
  {
    hide Lex;
    LexSelectParts();
    LexName(d.table);
    var t1 := [SELECT] + [target];
    LexSnoc("SELECT ", [SELECT], name, [target]);
    LexSnoc("SELECT " + name, t1, " FROM ", [FROM]);
    LexSnoc("SELECT " + name + " FROM ", t1 + [FROM], d.table, [Word(d.table)]);
    var s2, t2 := "SELECT " + name + " FROM " + d.table, t1 + [FROM] + [Word(d.table)];
    LexSnoc(s2, t2, " WHERE( ", [WHERE, LParen]);
    LexSnoc(s2 + " WHERE( ", t2 + [WHERE, LParen], tests, ts);
    LexSnoc(s2 + " WHERE( " + tests, t2 + [WHERE, LParen] + ts, " ) ;", [RParen, Semi]);
  }

  lemma LexTarget(d: Descriptor, target: int)
    requires Sound(d) && (target == ALL || target == ROW_ID || IsColumn(d, target))
    ensures TargetName(d, target) != ""
    ensures Lex(TargetName(d, target)) == Some([if target == ALL then Star else Word(ColumnName(d, target))])
  {
    if target == ALL {
      LexSelectParts();
    } else {
      assert IsName("rowid");
      LexName(TargetName(d, target));
    }
  }

  /** A select over any number of conditions parses back to its target, table and conditions. */
  lemma ParseSelect(d: Descriptor, tests: seq<Test>, target: int)
    requires Sound(d) && tests != []
    requires forall i :: 0 <= i < |tests| ==> IsTest(d, tests[i]) && Printable(tests[i].value)
    requires target == ALL || target == ROW_ID || IsColumn(d, target)
    ensures ParseText(SelectText(d, tests, target)) == Some(SelectStatement(d, tests, target))
  {
    hide Lex, Parse, ConditionTokens, TestsText, ColumnName;
    var stmt := SelectStatement(d, tests, target);
    var cs := ConditionTokens(stmt.conditions);
    LexAllTests(d, tests);
    LexTarget(d, target);
    LexSelect(d, TargetName(d, target), TargetToken(stmt.target), TestsText(d, tests), cs);
    assert [SELECT] + [TargetToken(stmt.target)] + [FROM] + [Word(d.table)] + [WHERE, LParen]
        == [SELECT, TargetToken(stmt.target), FROM, Word(d.table), WHERE, LParen];
    assert [SELECT] + [TargetToken(stmt.target)] + [FROM] + [Word(d.table)] + [WHERE, LParen] + cs + [RParen, Semi]
        == Tokens(stmt);
    ParseTokens(stmt);
  }

  // ---------- quotes in the printed texts ----------

  /** How often a character turns up in the printed values. */
  function CountPrinted(values: seq<Literal>, c: char): nat {
    if values == [] then 0 else Count(ToStringS(values[0]), c) + CountPrinted(values[1..], c)
  }

  function CountItems(items: seq<string>, c: char): nat {
    if items == [] then 0 else Count(items[0], c) + CountItems(items[1..], c)
  }

  /** A character that is in no name, number or fixed part but for the final semicolon. */
  predicate Mark(c: char) {
    c == '\"' || c == ';'
  }

  lemma {:induction false} ItemsOfPrinted(values: seq<Literal>, c: char)
    ensures CountItems(Printed(values), c) == CountPrinted(values, c)
  {
    if values != [] {
      ItemsOfPrinted(values[1..], c);
      assert Printed(values)[1..] == Printed(values[1..]);
    }
  }

  lemma {:induction false} ItemsOfNames(names: seq<string>, c: char)
    requires Mark(c) && forall i :: 0 <= i < |names| ==> IsName(names[i])
    ensures CountItems(names, c) == 0
  {
    if names != [] {
      CountNone(names[0], c);
      ItemsOfNames(names[1..], c);
    }
  }

  lemma {:induction false} CountEach(acc: string, items: seq<string>, c: char)
    requires Mark(c)
    ensures Count(AppendEach(acc, items), c) == Count(acc, c) + CountItems(items, c)
    decreases |items|
  {
    if items != [] {
      CountEach(acc + "," + items[0], items[1..], c);
      CountConcat(acc + ",", items[0], c);
      CountConcat(acc, ",", c);
      CountOne(',', c);
    }
  }

  lemma CountList(acc: string, items: seq<string>, c: char)
    requires Mark(c) && |items| >= 2
    ensures Count(AppendList(acc, items), c) == Count(acc, c) + CountItems(items, c)
  {
    CountEach(acc + items[0] + " , " + items[1], items[2..], c);
    CountConcat(acc + items[0] + " , ", items[1], c);
    CountConcat(acc + items[0], " , ", c);
    CountConcat(acc, items[0], c);
    CountNone(" , ", c);
    assert items[1..][1..] == items[2..];
  }

  lemma CountThree(a: string, b: string, z: string, c: char)
    ensures Count(a + b + z, c) == Count(a, c) + Count(b, c) + Count(z, c)
  {
    CountConcat(a + b, z, c);
    CountConcat(a, b, c);
  }

  lemma CountEnd(pre: string, c: char)
    requires Mark(c) && ';' !in pre && '\"' !in pre
    ensures Count(pre + ";", c) == if c == ';' then 1 else 0
  {
    CountConcat(pre, ";", c);
    CountNone(pre, c);
    CountOne(';', c);
  }

  lemma CountPairs(d: Descriptor, pairs: seq<Pair>, c: char)
    requires Sound(d) && |pairs| >= 2 && Mark(c) && forall i :: 0 <= i < |pairs| ==> IsColumn(d, pairs[i].0)
    ensures Count(InsertPairsText(d, pairs), c) == CountPrinted(PairValues(pairs), c) + if c == ';' then 1 else 0
  {
    hide AppendList, Count, CountItems, CountPrinted;
    var names, values := ColumnNames(d, pairs), Printed(PairValues(pairs));
    var head := "INSERT INTO " + d.table + " (";
    var mid := AppendList(head, names) + ") VALUES (";
    CountThree("INSERT INTO ", d.table, " (", c);
    CountNone("INSERT INTO ", c);
    CountNone(d.table, c);
    CountNone(" (", c);
    CountList(head, names, c);
    ItemsOfNames(names, c);
    CountConcat(AppendList(head, names), ") VALUES (", c);
    CountNone(") VALUES (", c);
    CountList(mid, values, c);
    ItemsOfPrinted(PairValues(pairs), c);
    CountEnd(")", c);
    CountConcat(AppendList(mid, values), ");", c);
    assert ")" + ";" == ");";
  }

  lemma CountPositional(d: Descriptor, v0: Literal, v1: Literal, c: char)
    requires IsName(d.table) && Mark(c)
    ensures Count(InsertText(d, v0, v1), c) ==
            Count(ToStringS(v0), c) + Count(ToStringS(v1), c) + if c == ';' then 1 else 0
  {
    hide Count;
    var head := "INSERT INTO " + d.table + " VALUES( ";
    CountThree("INSERT INTO ", d.table, " VALUES( ", c);
    CountNone("INSERT INTO ", c);
    CountNone(d.table, c);
    CountNone(" VALUES( ", c);
    CountThree(head, ToStringS(v0), ",", c);
    CountNone(",", c);
    CountEnd(")", c);
    CountThree(head + ToStringS(v0) + ",", ToStringS(v1), ");", c);
    assert ")" + ";" == ");";
  }

  function TestValues(tests: seq<Test>): seq<Literal> {
    seq(|tests|, i requires 0 <= i < |tests| => tests[i].value)
  }

  lemma CountTest(acc: string, d: Descriptor, t: Test, c: char)
    requires Sound(d) && IsTest(d, t) && Mark(c)
    ensures Count(AppendTest(acc, d, t), c) == Count(acc, c) + Count(ToStringS(t.value), c)
  {
    hide Count;
    var name := ColumnName(d, t.column);
    assert IsName("rowid");
    assert IsName(name);
    CountThree(acc + name, SYMBOLS[t.code], ToStringS(t.value), c);
    CountConcat(acc, name, c);
    CountNone(name, c);
    assert c !in SYMBOLS[t.code];
    CountNone(SYMBOLS[t.code], c);
  }

  lemma {:induction false} CountTests(acc: string, d: Descriptor, tests: seq<Test>, c: char)
    requires Sound(d) && Mark(c) && forall i :: 0 <= i < |tests| ==> IsTest(d, tests[i])
    ensures Count(AppendTests(acc, d, tests), c) == Count(acc, c) + CountPrinted(TestValues(tests), c)
    decreases |tests|
  {
    hide Count, AppendTest, Sound;
    if tests != [] {
      CountConcat(acc, " AND ", c);
      CountNone(" AND ", c);
      CountTest(acc + " AND ", d, tests[0], c);
      CountTests(AppendTest(acc + " AND ", d, tests[0]), d, tests[1..], c);
      assert TestValues(tests)[1..] == TestValues(tests[1..]);
    }
  }

  lemma CountSelect(d: Descriptor, tests: seq<Test>, target: int, c: char)
    requires Sound(d) && Mark(c) && tests != [] && forall i :: 0 <= i < |tests| ==> IsTest(d, tests[i])
    requires target == ALL || target == ROW_ID || IsColumn(d, target)
    ensures Count(SelectText(d, tests, target), c) ==
            CountPrinted(TestValues(tests), c) + if c == ';' then 1 else 0
  {
    hide Count, AppendTest, AppendTests;
    var name, inner := TargetName(d, target), TestsText(d, tests);
    var head := "SELECT " + name + " FROM ";
    CountThree("SELECT ", name, " FROM ", c);
    CountNone("SELECT ", c);
    assert IsName("rowid");
    CountNone(name, c);
    CountNone(" FROM ", c);
    CountThree(head, d.table, " WHERE( ", c);
    CountNone(d.table, c);
    CountNone(" WHERE( ", c);
    CountTest("", d, tests[0], c);
    CountTests(AppendTest("", d, tests[0]), d, tests[1..], c);
    CountNone("", c);
    assert TestValues(tests)[1..] == TestValues(tests[1..]);
    CountEnd(" ) ", c);
    CountThree(head + d.table + " WHERE( ", inner, " ) ;", c);
    assert " ) " + ";" == " ) ;";
  }

  /** What the printed values hold in quotes, and what they would take up if read back: equal only when no
      text holds a quote of its own. */
  lemma {:induction false} QuotesBalance(values: seq<Literal>)
    ensures CountPrinted(values, '\"') <= LiteralQuotes(values)
    ensures CountPrinted(values, '\"') == LiteralQuotes(values) ==> AllPrintable(values)
  {
    if values != [] {
      QuotesBalance(values[1..]);
      match values[0] {
        case IntLit(n) =>
          LexInt(n);
          LexQuotes(OfInt(n), [Number(n)]);
          assert [Number(n)][1..] == [];
        case TextLit(t) =>
          QuotedCount(t, '\"');
          CountNone(t, '\"');
      }
      assert forall i :: 1 <= i < |values| ==> values[i] == values[1..][i - 1];
    }
  }

  /** Round trip of inserts by column/value pairs: the printed text parses back to the same table, columns
      and values if and only if no text value holds a double quote. */
  lemma InsertPairsRoundTrip(d: Descriptor, pairs: seq<Pair>)
    requires Sound(d) && |pairs| >= 2 && forall i :: 0 <= i < |pairs| ==> IsColumn(d, pairs[i].0)
    ensures ParseText(InsertPairsText(d, pairs)) == Some(PairsStatement(d, pairs)) <==> AllPrintable(PairValues(pairs))
  {
    hide ParseText, InsertPairsText, Sound;
    if AllPrintable(PairValues(pairs)) {
      ParsePairs(d, pairs);
    }
    if ParseText(InsertPairsText(d, pairs)) == Some(PairsStatement(d, pairs)) {
      ParsedQuotes(InsertPairsText(d, pairs), PairsStatement(d, pairs));
      CountPairs(d, pairs, '\"');
      QuotesBalance(PairValues(pairs));
    }
  }

  /** The same for positional inserts. */
  lemma InsertRoundTrip(d: Descriptor, v0: Literal, v1: Literal)
    requires IsName(d.table)
    ensures ParseText(InsertText(d, v0, v1)) == Some(Insert(d.table, None, [v0, v1]))
            <==> Printable(v0) && Printable(v1)
  {
    hide ParseText, InsertText;
    if Printable(v0) && Printable(v1) {
      ParsePositional(d, v0, v1);
    }
    if ParseText(InsertText(d, v0, v1)) == Some(Insert(d.table, None, [v0, v1])) {
      ParsedQuotes(InsertText(d, v0, v1), Insert(d.table, None, [v0, v1]));
      CountPositional(d, v0, v1, '\"');
      QuotesBalance([v0, v1]);
      assert [v0, v1][0] == v0 && [v0, v1][1] == v1;
      assert [v0, v1][1..] == [v1] && [v1][1..] == [];
      assert CountPrinted([v1], '\"') == Count(ToStringS(v1), '\"') + CountPrinted([], '\"');
    }
  }

  /** The same for selects over any number of conditions. */
  lemma SelectRoundTrip(d: Descriptor, tests: seq<Test>, target: int)
    requires Sound(d) && tests != [] && forall i :: 0 <= i < |tests| ==> IsTest(d, tests[i])
    requires target == ALL || target == ROW_ID || IsColumn(d, target)
    ensures ParseText(SelectText(d, tests, target)) == Some(SelectStatement(d, tests, target))
            <==> forall i :: 0 <= i < |tests| ==> Printable(tests[i].value)
  {
    hide ParseText, SelectText, Sound;
    if forall i :: 0 <= i < |tests| ==> Printable(tests[i].value) {
      ParseSelect(d, tests, target);
    }
    if ParseText(SelectText(d, tests, target)) == Some(SelectStatement(d, tests, target)) {
      ParsedQuotes(SelectText(d, tests, target), SelectStatement(d, tests, target));
      CountSelect(d, tests, target, '\"');
      assert ConditionValues(ToConditions(d, tests)) == TestValues(tests);
      QuotesBalance(TestValues(tests));
      assert forall i :: 0 <= i < |tests| ==> TestValues(tests)[i] == tests[i].value;
    }
  }

  // ---------- the first value that is misread ----------

  lemma {:induction false} EachSplit(acc: string, items: seq<string>, i: nat)
    requires i < |items|
    ensures AppendEach(acc, items) == AppendEach(AppendEach(acc, items[..i]) + "," + items[i], items[i + 1..])
    decreases |items|
  {
    if i > 0 {
      EachSplit(acc + "," + items[0], items[1..], i - 1);
      assert items[1..][..i - 1] == items[..i][1..] && items[1..][i..] == items[i + 1..];
    }
  }

  lemma {:induction false} EachTail(acc: string, items: seq<string>) returns (tail: string)
    ensures AppendEach(acc, items) == acc + tail && (tail != "" ==> tail[0] == ',')
    decreases |items|
  {
    if items == [] {
      tail := "";
    } else {
      var rest := EachTail(acc + "," + items[0], items[1..]);
      tail := "," + items[0] + rest;
    }
  }

  /** A printed list, cut around one of its items: what comes before it reads as the items before it, each with
      its comma. */
  lemma ListSplit(acc: string, front: seq<Token>, items: seq<string>, toks: seq<Token>, i: nat)
    returns (left: string, right: string)
    requires Lex(acc) == Some(front) && acc != "" && acc[|acc| - 1] == '(' && 2 <= |items| && i < |items| && |toks| == i
    requires forall j :: 0 <= j < i ==> items[j] != "" && Lex(items[j]) == Some([toks[j]])
    ensures AppendList(acc, items) == left + items[i] + right
    ensures right == "" || right[0] == ' ' || right[0] == ','
    ensures Lex(left) == Some(front + Lead(toks)) && left != "" && left[|left| - 1] != '\"'
  {
    hide Lex;
    LexInsertParts();
    LeadOf(toks);
    var both := acc + items[0] + " , " + items[1];
    if i == 0 {
      var tail := EachTail(both, items[2..]);
      left, right := acc, " , " + items[1] + tail;
      assert front + Lead(toks) == front;
    } else {
      LexSnoc(acc, front, items[0], [toks[0]]);
      LexSnoc(acc + items[0], front + [toks[0]], " , ", [Comma]);
      if i == 1 {
        var tail := EachTail(both, items[2..]);
        left, right := acc + items[0] + " , ", tail;
        assert toks == [toks[0]] && front + [toks[0]] + [Comma] == front + Lead(toks);
      } else {
        var before := items[2..][..i - 2];
        LexSnoc(acc + items[0] + " , ", front + [toks[0]] + [Comma], items[1], [toks[1]]);
        assert front + [toks[0]] + [Comma] + [toks[1]] == front + ItemTokens([toks[0], toks[1]]);
        LexEach(both, front, [toks[0], toks[1]], before, toks[2..]);
        assert [toks[0], toks[1]] + toks[2..] == toks;
        LexMark(',');
        LexSnoc(AppendEach(both, before), front + ItemTokens(toks), ",", [Comma]);
        left := AppendEach(both, before) + ",";
        EachSplit(both, items[2..], i - 2);
        assert items[2..][i - 2] == items[i];
        right := EachTail(left + items[i], items[2..][i - 2 + 1..]);
        assert front + ItemTokens(toks) + [Comma] == front + Lead(toks);
      }
    }
  }

  /** A string with a quote inside, printed behind a text that reads as `front`: either nothing more can be
      read, or the next token is another text. */
  lemma MisreadText(left: string, front: seq<Token>, v: string, rest: string)
    requires Lex(left) == Some(front) && left != "" && left[|left| - 1] != '\"'
    requires !QuoteFree(v) && (rest == "" || rest[0] != '\"')
    ensures Misread(LexAll(left + ("\"" + v + "\"" + rest)), front, v)
  {
    hide Lex, LexAll, ScanText;
    var s := "\"" + v + "\"" + rest;
    assert Apart(left, s);
    LexIsWhole(left);
    LexAllAppend(left, s);
    assert s[1..] == v + "\"" + rest;
    QuotedIsMisread(v, rest);
    FirstIsText(s);
    MisreadBehind(front, LexAll(s).0, LexAll(s).1, v);
  }

  /** Tokens that begin as `front`, and then end early or go on with a text that is not `v`. */
  predicate Misread(r: (seq<Token>, bool), front: seq<Token>, v: string) {
    front <= r.0 && (if r.0 == front then !r.1 else r.0[|front|].Text? && r.0[|front|].text != v)
  }

  lemma MisreadBehind(front: seq<Token>, more: seq<Token>, whole: bool, v: string)
    requires if more == [] then !whole else more[0].Text? && more[0].text != v
    ensures Misread((front + more, whole), front, v)
  {
    if more == [] {
      assert front + more == front;
    } else {
      assert (front + more)[|front|] == more[0];
    }
  }

  /** An insert with a text that holds a quote: its tokens are the right ones up to the first such value, and
      there either end or go on with another text. */
  lemma MisreadPairs(d: Descriptor, pairs: seq<Pair>) returns (i: nat)
    requires Sound(d) && |pairs| >= 2 && forall i :: 0 <= i < |pairs| ==> IsColumn(d, pairs[i].0)
    requires !AllPrintable(PairValues(pairs))
    ensures i < |pairs| && !Printable(pairs[i].1)
    ensures Misread(LexAll(InsertPairsText(d, pairs)),
              BeforeToken(d.table, ColumnNames(d, pairs), PairValues(pairs)[..i]), pairs[i].1.t)
  {
    hide Lex, LexAll, AppendList, ItemTokens, Lead, Misread;
    var names, values := ColumnNames(d, pairs), PairValues(pairs);
    i := FirstBad(values);
    var front := LexToValues(d, names);
    var mid := AppendList("INSERT INTO " + d.table + " (", names) + ") VALUES (";
    MisreadList(mid, front, values, i);
    var lead := Lead(Literals(values[..i]));
    assert front + lead == BeforeToken(d.table, names, values[..i]);
  }

  lemma MisreadList(mid: string, front: seq<Token>, values: seq<Literal>, i: nat)
    requires Lex(mid) == Some(front) && mid != "" && mid[|mid| - 1] == '(' && 2 <= |values| && i < |values|
    requires !Printable(values[i]) && forall j :: 0 <= j < i ==> Printable(values[j])
    ensures Misread(LexAll(AppendList(mid, Printed(values)) + ");"), front + Lead(Literals(values[..i])), values[i].t)
  {
    hide Lex, LexAll, AppendList, ItemTokens, Lead, Misread;
    var items := Printed(values);
    forall j | 0 <= j < i ensures items[j] != "" && Lex(items[j]) == Some([Literals(values[..i])[j]]) {
      LexLiteral(values[j]);
    }
    var left, right := ListSplit(mid, front, items, Literals(values[..i]), i);
    var v := values[i].t;
    Regrouped(left, v, right);
    MisreadText(left, front + Lead(Literals(values[..i])), v, right + ");");
  }

  lemma Regrouped(left: string, v: string, right: string)
    ensures left + ("\"" + v + "\"") + right + ");" == left + ("\"" + v + "\"" + (right + ");"))
  {
  }

  lemma {:induction false} FirstBad(values: seq<Literal>) returns (i: nat)
    requires !AllPrintable(values)
    ensures i < |values| && !Printable(values[i]) && forall j :: 0 <= j < i ==> Printable(values[j])
    decreases |values|
  {
    if !Printable(values[0]) {
      i := 0;
    } else {
      assert !AllPrintable(values[1..]) by {
        var j :| 0 <= j < |values| && !Printable(values[j]);
        assert values[1..][j - 1] == values[j];
      }
      var k := FirstBad(values[1..]);
      i := k + 1;
      assert forall j :: 1 <= j < i ==> values[j] == values[1..][j - 1];
    }
  }

  /** The insert's text up to where its values begin. */
  lemma LexToValues(d: Descriptor, names: seq<string>) returns (front: seq<Token>)
    requires IsName(d.table) && |names| >= 2 && forall i :: 0 <= i < |names| ==> IsName(names[i])
    ensures front == [INSERT, INTO, Word(d.table), LParen] + ItemTokens(Words(names)) + [RParen, VALUES, LParen]
    ensures var mid := AppendList("INSERT INTO " + d.table + " (", names) + ") VALUES (";
            Lex(mid) == Some(front) && mid[|mid| - 1] == '('
  {
    hide Lex, AppendList, ItemTokens;
    LexInsertParts();
    LexName(d.table);
    LexNames(names);
    var t0 := [INSERT, INTO] + [Word(d.table)];
    LexSnoc("INSERT INTO ", [INSERT, INTO], d.table, [Word(d.table)]);
    LexSnoc("INSERT INTO " + d.table, t0, " (", [LParen]);
    LexList("INSERT INTO " + d.table + " (", t0 + [LParen], names, Words(names));
    LexSnoc(AppendList("INSERT INTO " + d.table + " (", names), t0 + [LParen] + ItemTokens(Words(names)),
      ") VALUES (", [RParen, VALUES, LParen]);
    front := t0 + [LParen] + ItemTokens(Words(names)) + [RParen, VALUES, LParen];
    assert t0 + [LParen] == [INSERT, INTO, Word(d.table), LParen];
  }

  // ---------- printing is injective ----------

  lemma ColumnNamesDiffer(d: Descriptor, i: int, j: int)
    requires Sound(d) && (i == ROW_ID || IsColumn(d, i)) && (j == ROW_ID || IsColumn(d, j))
    ensures ColumnName(d, i) == ColumnName(d, j) ==> i == j
  {
    if i != ROW_ID && j != ROW_ID {
      assert i < j ==> d.columns[i] != d.columns[j];
      assert j < i ==> d.columns[j] != d.columns[i];
    } else if i != ROW_ID {
      assert d.columns[i] in d.columns;
    } else if j != ROW_ID {
      assert d.columns[j] in d.columns;
    }
  }

  lemma SymbolsDiffer(a: nat, b: nat)
    requires a < |SYMBOLS| && b < |SYMBOLS|
    ensures SYMBOLS[a] == SYMBOLS[b] ==> a == b
  {
    assert |SYMBOLS[0]| == |SYMBOLS[3]| == 1 && SYMBOLS[0][0] != SYMBOLS[3][0];
    assert |SYMBOLS[1]| == |SYMBOLS[2]| == |SYMBOLS[4]| == 2;
    assert SYMBOLS[1][0] == '>' && SYMBOLS[2][0] == '=' && SYMBOLS[4][0] == '<';
  }

  /** No two descriptors name the same table. */
  lemma TableNamesDiffer(a: QueryDescriptor, b: QueryDescriptor)
    requires a != b
    ensures DescriptorOf(a).table != DescriptorOf(b).table
  {
    assert |"user"| == |"part"| == 4 && "user"[0] != "part"[0];
    assert |"chatTable"| == |"checkList"| == 9 && "chatTable"[2] != "checkList"[2];
    assert |"ms"| == 2 && |"userPair"| == 8 && |"invite"| == 6 && |"connectionRequest"| == 17;
  }

  predicate ProperTests(qd: QueryDescriptor, tests: seq<Test>, target: int) {
    tests != [] && (forall i :: 0 <= i < |tests| ==> IsTest(DescriptorOf(qd), tests[i]) && Printable(tests[i].value)) &&
    (target == ALL || target == ROW_ID || IsColumn(DescriptorOf(qd), target))
  }

  /** Two selects that print alike ask the same of the same table. */
  lemma SelectIsInjective(qd: QueryDescriptor, tests: seq<Test>, target: int,
      qd': QueryDescriptor, tests': seq<Test>, target': int)
    requires ProperTests(qd, tests, target) && ProperTests(qd', tests', target')
    requires SelectText(DescriptorOf(qd), tests, target) == SelectText(DescriptorOf(qd'), tests', target')
    ensures qd == qd' && tests == tests' && target == target'
  {
    hide SelectText, ParseText, Sound;
    DescriptorsAreSound(qd);
    DescriptorsAreSound(qd');
    SelectRoundTrip(DescriptorOf(qd), tests, target);
    SelectRoundTrip(DescriptorOf(qd'), tests', target');
    if qd != qd' {
      TableNamesDiffer(qd, qd');
    } else {
      SameConditions(DescriptorOf(qd), tests, target, tests', target');
    }
  }

  lemma SameConditions(d: Descriptor, tests: seq<Test>, target: int, tests': seq<Test>, target': int)
    requires Sound(d)
    requires forall i :: 0 <= i < |tests| ==> IsTest(d, tests[i])
    requires forall i :: 0 <= i < |tests'| ==> IsTest(d, tests'[i])
    requires target == ALL || target == ROW_ID || IsColumn(d, target)
    requires target' == ALL || target' == ROW_ID || IsColumn(d, target')
    requires SelectStatement(d, tests, target) == SelectStatement(d, tests', target')
    ensures tests == tests' && target == target'
  {
    hide Sound;
    var cs, cs' := ToConditions(d, tests), ToConditions(d, tests');
    assert |tests| == |cs| == |tests'|;
    forall i | 0 <= i < |tests| ensures tests[i] == tests'[i] {
      assert cs[i] == cs'[i];
      ColumnNamesDiffer(d, tests[i].column, tests'[i].column);
      SymbolsDiffer(tests[i].code, tests'[i].code);
    }
    if target != ALL && target' != ALL {
      ColumnNamesDiffer(d, target, target');
    }
  }

  predicate ProperPairs(qd: QueryDescriptor, pairs: seq<Pair>) {
    |pairs| >= 2 && (forall i :: 0 <= i < |pairs| ==> IsColumn(DescriptorOf(qd), pairs[i].0)) &&
    AllPrintable(PairValues(pairs))
  }

  /** Two inserts that print alike store the same values under the same columns of the same table. */
  lemma InsertIsInjective(qd: QueryDescriptor, pairs: seq<Pair>, qd': QueryDescriptor, pairs': seq<Pair>)
    requires ProperPairs(qd, pairs) && ProperPairs(qd', pairs')
    requires InsertPairsText(DescriptorOf(qd), pairs) == InsertPairsText(DescriptorOf(qd'), pairs')
    ensures qd == qd' && pairs == pairs'
  {
    hide InsertPairsText, ParseText, Sound;
    DescriptorsAreSound(qd);
    DescriptorsAreSound(qd');
    InsertPairsRoundTrip(DescriptorOf(qd), pairs);
    InsertPairsRoundTrip(DescriptorOf(qd'), pairs');
    if qd != qd' {
      TableNamesDiffer(qd, qd');
    } else {
      SamePairs(DescriptorOf(qd), pairs, pairs');
    }
  }

  lemma SamePairs(d: Descriptor, pairs: seq<Pair>, pairs': seq<Pair>)
    requires Sound(d)
    requires forall i :: 0 <= i < |pairs| ==> IsColumn(d, pairs[i].0)
    requires forall i :: 0 <= i < |pairs'| ==> IsColumn(d, pairs'[i].0)
    requires PairsStatement(d, pairs) == PairsStatement(d, pairs')
    ensures pairs == pairs'
  {
    hide Sound;
    var names, names' := ColumnNames(d, pairs), ColumnNames(d, pairs');
    var values, values' := PairValues(pairs), PairValues(pairs');
    assert |pairs| == |names| == |pairs'|;
    forall i | 0 <= i < |pairs| ensures pairs[i] == pairs'[i] {
      assert names[i] == names'[i] && values[i] == values'[i];
      ColumnNamesDiffer(d, pairs[i].0, pairs'[i].0);
    }
  }

  /** The same for positional inserts; and no text is printed by two of the three kinds. */
  lemma PrintingIsInjective(qd: QueryDescriptor, a: Literal, b: Literal, qd': QueryDescriptor, a': Literal, b': Literal,
      p: QueryDescriptor, pairs: seq<Pair>, q: QueryDescriptor, tests: seq<Test>, target: int)
    requires Printable(a) && Printable(b) && Printable(a') && Printable(b')
    requires ProperPairs(p, pairs) && ProperTests(q, tests, target)
    ensures InsertText(DescriptorOf(qd), a, b) == InsertText(DescriptorOf(qd'), a', b') ==>
              qd == qd' && a == a' && b == b'
    ensures InsertText(DescriptorOf(qd), a, b) != InsertPairsText(DescriptorOf(p), pairs)
    ensures InsertText(DescriptorOf(qd), a, b) != SelectText(DescriptorOf(q), tests, target)
    ensures InsertPairsText(DescriptorOf(p), pairs) != SelectText(DescriptorOf(q), tests, target)
  {
    hide InsertText, InsertPairsText, SelectText, ParseText, Sound, IsName;
    DescriptorsAreSound(p);
    DescriptorsAreSound(q);
    TableIsName(qd);
    TableIsName(qd');
    InsertRoundTrip(DescriptorOf(qd), a, b);
    InsertRoundTrip(DescriptorOf(qd'), a', b');
    InsertPairsRoundTrip(DescriptorOf(p), pairs);
    SelectRoundTrip(DescriptorOf(q), tests, target);
    assert [a, b] == [a', b'] ==> [a, b][0] == [a', b'][0] && [a, b][1] == [a', b'][1];
    if qd != qd' {
      TableNamesDiffer(qd, qd');
    }
  }

  lemma TableIsName(qd: QueryDescriptor)
    ensures IsName(DescriptorOf(qd).table)
  {
    hide IsName;
    DescriptorsAreSound(qd);
  }
}
