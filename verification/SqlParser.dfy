/**
 Abstract syntax, token form and parser of the statements the builders print. The parser and the token
 form are inverse to each other: `ParseTokens` in one direction, `ParseIsExact` in the other.
 */
module SqlParser {
  import opened Core
  import opened SqlLexer

  datatype Literal = IntLit(n: int) | TextLit(t: string)

  datatype Target = AllColumns | OneColumn(name: string)

  datatype Condition = Condition(column: string, symbol: string, value: Literal)

  datatype Statement =
    | Insert(table: string, columns: Option<seq<string>>, values: seq<Literal>)
    | Select(target: Target, table: string, conditions: seq<Condition>)

  const INSERT := Word("INSERT")
  const INTO := Word("INTO")
  const VALUES := Word("VALUES")
  const SELECT := Word("SELECT")
  const FROM := Word("FROM")
  const WHERE := Word("WHERE")
  const AND := Word("AND")

  predicate WellFormed(s: Statement) {
    match s
    case Insert(_, columns, values) => (columns.Some? ==> columns.value != []) && values != []
    case Select(_, _, conditions) => conditions != []
  }

  function LiteralToken(v: Literal): Token {
    match v
    case IntLit(n) => Number(n)
    case TextLit(t) => Text(t)
  }

  predicate IsLiteral(t: Token) {
    t.Number? || t.Text?
  }

  function ToLiteral(t: Token): (v: Literal)
    requires IsLiteral(t)
    ensures LiteralToken(v) == t
  {
    if t.Number? then IntLit(t.number) else TextLit(t.text)
  }

  predicate IsItem(t: Token) {
    t.Word? || IsLiteral(t)
  }

  function Words(names: seq<string>): seq<Token> {
    seq(|names|, i requires 0 <= i < |names| => Word(names[i]))
  }

  function Literals(values: seq<Literal>): seq<Token> {
    seq(|values|, i requires 0 <= i < |values| => LiteralToken(values[i]))
  }

  function ToLiterals(items: seq<Token>): (values: seq<Literal>)
    requires forall i :: 0 <= i < |items| ==> IsLiteral(items[i])
    ensures Literals(values) == items
  {
    seq(|items|, i requires 0 <= i < |items| => ToLiteral(items[i]))
  }

  function ToNames(items: seq<Token>): (names: seq<string>)
    requires forall i :: 0 <= i < |items| ==> items[i].Word?
    ensures Words(names) == items
  {
    seq(|items|, i requires 0 <= i < |items| => items[i].word)
  }

  lemma LiteralsInverse(values: seq<Literal>)
    ensures ToLiterals(Literals(values)) == values
  {
    var back := ToLiterals(Literals(values));
    assert |Literals(back)| == |Literals(values)|;
    forall i | 0 <= i < |values| ensures back[i] == values[i] {
      assert Literals(back)[i] == Literals(values)[i];
    }
  }

  lemma NamesInverse(names: seq<string>)
    ensures ToNames(Words(names)) == names
  {
    var back := ToNames(Words(names));
    assert |Words(back)| == |Words(names)|;
    forall i | 0 <= i < |names| ensures back[i] == names[i] {
      assert Words(back)[i] == Words(names)[i];
    }
  }

  /** Items with commas between them. */
  function ItemTokens(items: seq<Token>): seq<Token> {
    if |items| <= 1 then items else [items[0], Comma] + ItemTokens(items[1..])
  }

  function OneCondition(c: Condition): seq<Token> {
    [Word(c.column), Op(c.symbol), LiteralToken(c.value)]
  }

  /** Conditions with AND between them. */
  function ConditionTokens(cs: seq<Condition>): seq<Token> {
    if cs == [] then []
    else if |cs| == 1 then OneCondition(cs[0])
    else OneCondition(cs[0]) + ([AND] + ConditionTokens(cs[1..]))
  }

  function TargetToken(t: Target): Token {
    if t.AllColumns? then Star else Word(t.name)
  }

  function ValuesTokens(values: seq<Literal>): seq<Token> {
    [VALUES, LParen] + ItemTokens(Literals(values)) + [RParen, Semi]
  }

  function ColumnsTokens(columns: Option<seq<string>>): seq<Token> {
    if columns.None? then [] else [LParen] + ItemTokens(Words(columns.value)) + [RParen]
  }

  function Tokens(s: Statement): seq<Token> {
    match s
    case Insert(table, columns, values) =>
      [INSERT, INTO, Word(table)] + (ColumnsTokens(columns) + ValuesTokens(values))
    case Select(target, table, conditions) =>
      [SELECT, TargetToken(target), FROM, Word(table), WHERE, LParen] +
      (ConditionTokens(conditions) + [RParen, Semi])
  }

  function ParseItems(ts: seq<Token>): Option<(seq<Token>, seq<Token>)> {
    if ts == [] || !IsItem(ts[0]) then None
    else if |ts| > 1 && ts[1].Comma? then
      match ParseItems(ts[2..])
      case None => None
      case Some(p) => Some(([ts[0]] + p.0, p.1))
    else Some((ts[..1], ts[1..]))
  }

  function ParseConditions(ts: seq<Token>): Option<(seq<Condition>, seq<Token>)> {
    if |ts| < 3 || !ts[0].Word? || !ts[1].Op? || !IsLiteral(ts[2]) then None
    else
      var c := Condition(ts[0].word, ts[1].symbol, ToLiteral(ts[2]));
      if |ts| > 3 && ts[3] == AND then
        match ParseConditions(ts[4..])
        case None => None
        case Some(p) => Some(([c] + p.0, p.1))
      else Some(([c], ts[3..]))
  }

  function ParseValues(table: string, columns: Option<seq<string>>, ts: seq<Token>): Option<Statement> {
    if |ts| < 2 || ts[0] != VALUES || ts[1] != LParen then None
    else
      match ParseItems(ts[2..])
      case None => None
      case Some(p) =>
        if (forall i :: 0 <= i < |p.0| ==> IsLiteral(p.0[i])) && p.1 == [RParen, Semi] then
          Some(Insert(table, columns, ToLiterals(p.0)))
        else None
  }

  function ParseInsert(table: string, ts: seq<Token>): Option<Statement> {
    if ts == [] || ts[0] != LParen then ParseValues(table, None, ts)
    else
      match ParseItems(ts[1..])
      case None => None
      case Some(p) =>
        if (forall i :: 0 <= i < |p.0| ==> p.0[i].Word?) && p.1 != [] && p.1[0] == RParen then
          ParseValues(table, Some(ToNames(p.0)), p.1[1..])
        else None
  }

  function Parse(ts: seq<Token>): Option<Statement> {
    if |ts| > 2 && ts[0] == INSERT && ts[1] == INTO && ts[2].Word? then
      ParseInsert(ts[2].word, ts[3..])
    else if |ts| > 5 && ts[0] == SELECT && (ts[1].Star? || ts[1].Word?) && ts[2] == FROM &&
            ts[3].Word? && ts[4] == WHERE && ts[5] == LParen then
      match ParseConditions(ts[6..])
      case None => None
      case Some(p) =>
        if p.1 == [RParen, Semi] then
          Some(Select(if ts[1].Star? then AllColumns else OneColumn(ts[1].word), ts[3].word, p.0))
        else None
    else None
  }

  /** From text to statement. */
  function ParseText(s: string): Option<Statement> {
    match Lex(s)
    case None => None
    case Some(ts) => Parse(ts)
  }

  lemma {:induction false} ParseItemsOf(items: seq<Token>, rest: seq<Token>)
    requires items != [] && forall i :: 0 <= i < |items| ==> IsItem(items[i])
    requires rest != [] ==> !rest[0].Comma?
    ensures ParseItems(ItemTokens(items) + rest) == Some((items, rest))
  {
    var ts := ItemTokens(items) + rest;
    if |items| == 1 {
      assert ts[..1] == items && ts[1..] == rest;
    } else {
      assert ts[2..] == ItemTokens(items[1..]) + rest;
      ParseItemsOf(items[1..], rest);
      assert items == [items[0]] + items[1..];
    }
  }

  lemma {:induction false} ItemsAreExact(ts: seq<Token>)
    requires ParseItems(ts).Some?
    ensures var (items, rest) := ParseItems(ts).value;
            items != [] && (forall i :: 0 <= i < |items| ==> IsItem(items[i])) && ts == ItemTokens(items) + rest
  {
    var (items, rest) := ParseItems(ts).value;
    if |ts| > 1 && ts[1].Comma? {
      ItemsAreExact(ts[2..]);
      assert items[1..] == ParseItems(ts[2..]).value.0;
      assert ts == [ts[0], Comma] + ts[2..];
      assert [ts[0], Comma] + (ItemTokens(items[1..]) + rest) == ([ts[0], Comma] + ItemTokens(items[1..])) + rest;
    } else {
      assert ts == ts[..1] + ts[1..];
    }
  }

  lemma ParseConditionsStep(c: Condition, more: seq<Token>)
    ensures ParseConditions(OneCondition(c) + more) ==
            if more != [] && more[0] == AND then
              match ParseConditions(more[1..]) case None => None case Some(p) => Some(([c] + p.0, p.1))
            else Some(([c], more))
  {
    var ts := OneCondition(c) + more;
    assert ts[3..] == more;
    assert more != [] ==> ts[3] == more[0] && ts[4..] == more[1..];
    assert ToLiteral(ts[2]) == c.value;
  }

  lemma RegroupConditions(cs: seq<Condition>, rest: seq<Token>)
    requires |cs| > 1
    ensures ConditionTokens(cs) + rest == OneCondition(cs[0]) + ([AND] + (ConditionTokens(cs[1..]) + rest))
  {
    var a, b := OneCondition(cs[0]), ConditionTokens(cs[1..]);
    assert (a + ([AND] + b)) + rest == a + ([AND] + (b + rest));
  }

  lemma {:induction false} ParseConditionsOf(cs: seq<Condition>, rest: seq<Token>)
    requires cs != [] && (rest != [] ==> rest[0] != AND)
    ensures ParseConditions(ConditionTokens(cs) + rest) == Some((cs, rest))
  {
    if |cs| == 1 {
      ParseConditionsStep(cs[0], rest);
      assert cs == [cs[0]];
    } else {
      var tail := ConditionTokens(cs[1..]) + rest;
      ParseConditionsOf(cs[1..], rest);
      ParseConditionsStep(cs[0], [AND] + tail);
      assert ([AND] + tail)[1..] == tail;
      assert cs == [cs[0]] + cs[1..];
      RegroupConditions(cs, rest);
    }
  }

  lemma {:induction false} ConditionsAreExact(ts: seq<Token>)
    requires ParseConditions(ts).Some?
    ensures var (cs, rest) := ParseConditions(ts).value; cs != [] && ts == ConditionTokens(cs) + rest
  {
    var c := Condition(ts[0].word, ts[1].symbol, ToLiteral(ts[2]));
    assert ts[..3] == OneCondition(c);
    assert ts == OneCondition(c) + ts[3..];
    ParseConditionsStep(c, ts[3..]);
    if |ts| > 3 && ts[3] == AND {
      assert ts[3..][1..] == ts[4..];
      ConditionsAreExact(ts[4..]);
      var (more, rest) := ParseConditions(ts[4..]).value;
      assert ([c] + more)[1..] == more;
      assert ts[3..] == [AND] + ts[4..];
      RegroupConditions([c] + more, rest);
    }
  }

  lemma ParseValuesOf(table: string, columns: Option<seq<string>>, values: seq<Literal>)
    requires values != []
    ensures ParseValues(table, columns, ValuesTokens(values)) == Some(Insert(table, columns, values))
  {
    var ts, items := ValuesTokens(values), Literals(values);
    assert ts[2..] == ItemTokens(items) + [RParen, Semi];
    ParseItemsOf(items, [RParen, Semi]);
    LiteralsInverse(values);
  }

  lemma ValuesAreExact(table: string, columns: Option<seq<string>>, ts: seq<Token>)
    requires ParseValues(table, columns, ts).Some?
    ensures var s := ParseValues(table, columns, ts).value;
            s.Insert? && s.table == table && s.columns == columns && s.values != [] && ts == ValuesTokens(s.values)
  {
    ItemsAreExact(ts[2..]);
    assert ts == [VALUES, LParen] + ts[2..];
  }

  lemma ParseInsertOf(table: string, columns: Option<seq<string>>, values: seq<Literal>)
    requires WellFormed(Insert(table, columns, values))
    ensures ParseInsert(table, ColumnsTokens(columns) + ValuesTokens(values)) == Some(Insert(table, columns, values))
  {
    hide ParseItems, ParseValues, ItemTokens;
    var body, tail := ColumnsTokens(columns) + ValuesTokens(values), ValuesTokens(values);
    ParseValuesOf(table, columns, values);
    if columns.None? {
      assert body == tail;
    } else {
      var items := Words(columns.value);
      assert body[1..] == ItemTokens(items) + ([RParen] + tail);
      ParseItemsOf(items, [RParen] + tail);
      assert ([RParen] + tail)[1..] == tail;
      NamesInverse(columns.value);
    }
  }

  lemma InsertIsExact(table: string, ts: seq<Token>)
    requires ParseInsert(table, ts).Some?
    ensures var s := ParseInsert(table, ts).value;
            s.Insert? && s.table == table && WellFormed(s) && ts == ColumnsTokens(s.columns) + ValuesTokens(s.values)
  {
    hide ParseItems, ParseValues, ItemTokens, ValuesTokens;
    var s := ParseInsert(table, ts).value;
    if ts == [] || ts[0] != LParen {
      ValuesAreExact(table, None, ts);
      assert [] + ValuesTokens(s.values) == ValuesTokens(s.values);
    } else {
      ItemsAreExact(ts[1..]);
      var (items, rest) := ParseItems(ts[1..]).value;
      var names := ToNames(items);
      ValuesAreExact(table, Some(names), rest[1..]);
      var tail := ValuesTokens(s.values);
      assert rest == [RParen] + tail;
      assert ts == [LParen] + (ItemTokens(items) + ([RParen] + tail));
      assert ts == ([LParen] + ItemTokens(items) + [RParen]) + tail;
    }
  }

  /** Parsing the token form of a statement gives the statement back. */
  lemma ParseTokens(s: Statement)
    requires WellFormed(s)
    ensures Parse(Tokens(s)) == Some(s)
  {
    hide ParseInsert, ParseConditions, ConditionTokens, ColumnsTokens, ValuesTokens;
    var ts := Tokens(s);
    match s
    case Insert(table, columns, values) =>
      assert ts[3..] == ColumnsTokens(columns) + ValuesTokens(values);
      ParseInsertOf(table, columns, values);
    case Select(target, table, conditions) =>
      assert ts[6..] == ConditionTokens(conditions) + [RParen, Semi];
      ParseConditionsOf(conditions, [RParen, Semi]);
  }

  /** Whatever parses is the token form of what it parses to. */
  lemma ParseIsExact(ts: seq<Token>)
    requires Parse(ts).Some?
    ensures WellFormed(Parse(ts).value) && Tokens(Parse(ts).value) == ts
  {
    hide ParseInsert, ParseConditions, ConditionTokens, ColumnsTokens, ValuesTokens;
    if ts[0] == INSERT {
      InsertIsExact(ts[2].word, ts[3..]);
      assert ts[..3] == [INSERT, INTO, Word(ts[2].word)];
      assert ts == ts[..3] + ts[3..];
    } else {
      ConditionsAreExact(ts[6..]);
      var s := Parse(ts).value;
      var head := [SELECT, TargetToken(s.target), FROM, Word(s.table), WHERE, LParen];
      assert ts[..6] == head;
      assert ts == head + ts[6..];
    }
  }

  lemma {:induction false} ItemTokensSnoc(items: seq<Token>, t: Token)
    requires items != []
    ensures ItemTokens(items + [t]) == ItemTokens(items) + [Comma, t]
  {
    if |items| == 1 {
      assert (items + [t])[1..] == [t];
    } else {
      assert (items + [t])[1..] == items[1..] + [t];
      ItemTokensSnoc(items[1..], t);
    }
  }

  lemma {:induction false} ConditionTokensSnoc(cs: seq<Condition>, c: Condition)
    requires cs != []
    ensures ConditionTokens(cs + [c]) == ConditionTokens(cs) + [AND] + OneCondition(c)
  {
    if |cs| == 1 {
      assert (cs + [c])[1..] == [c];
    } else {
      assert (cs + [c])[1..] == cs[1..] + [c];
      ConditionTokensSnoc(cs[1..], c);
    }
  }

  /** The one place where a further value goes: just before the closing parenthesis. */
  lemma TokensWithValue(table: string, columns: Option<seq<string>>, values: seq<Literal>, v: Literal)
    returns (front: seq<Token>)
    requires values != []
    ensures Tokens(Insert(table, columns, values)) == front + [RParen, Semi]
    ensures Tokens(Insert(table, columns, values + [v])) == (front + [Comma, LiteralToken(v)]) + [RParen, Semi]
  {
    var head, cols := [INSERT, INTO, Word(table)], ColumnsTokens(columns);
    var items := ItemTokens(Literals(values));
    front := head + (cols + ([VALUES, LParen] + items));
    assert Literals(values + [v]) == Literals(values) + [LiteralToken(v)];
    ItemTokensSnoc(Literals(values), LiteralToken(v));
    assert Tokens(Insert(table, columns, values)) == front + [RParen, Semi];
    assert ItemTokens(Literals(values + [v])) == items + [Comma, LiteralToken(v)];
  }

  // ---------- a value misread ----------

  /** Items each with a comma behind it. */
  function Lead(items: seq<Token>): seq<Token> {
    if items == [] then [] else [items[0], Comma] + Lead(items[1..])
  }

  lemma {:induction false} LeadOf(items: seq<Token>)
    ensures Lead(items) == if items == [] then [] else ItemTokens(items) + [Comma]
  {
    if items != [] {
      LeadOf(items[1..]);
      if |items| > 1 {
        assert [items[0], Comma] + (ItemTokens(items[1..]) + [Comma]) == ItemTokens(items) + [Comma];
      }
    }
  }

  lemma {:induction false} ParseLead(items: seq<Token>, rest: seq<Token>)
    requires forall i :: 0 <= i < |items| ==> IsItem(items[i])
    ensures ParseItems(Lead(items) + rest) ==
            match ParseItems(rest) case None => None case Some(p) => Some((items + p.0, p.1))
    ensures ParseItems(rest).Some? ==> ParseItems(rest).value.0 != [] && ParseItems(rest).value.0[0] == rest[0]
  {
    var ts := Lead(items) + rest;
    if items == [] {
      assert ts == rest;
      if ParseItems(rest).Some? {
        assert [] + ParseItems(rest).value.0 == ParseItems(rest).value.0;
      }
    } else {
      assert ts[2..] == Lead(items[1..]) + rest;
      ParseLead(items[1..], rest);
      if ParseItems(rest).Some? {
        assert [items[0]] + (items[1..] + ParseItems(rest).value.0) == items + ParseItems(rest).value.0;
      }
    }
  }

  /** The tokens of an insert up to one of its values. */
  function BeforeToken(table: string, names: seq<string>, values: seq<Literal>): seq<Token> {
    [INSERT, INTO, Word(table), LParen] +
    (ItemTokens(Words(names)) + ([RParen, VALUES, LParen] + Lead(Literals(values))))
  }

  /** An insert with another value at that place, if it parses at all, has that value there. */
  lemma ParseMisread(table: string, names: seq<string>, values: seq<Literal>, t: Token, more: seq<Token>)
    requires names != [] && t.Text?
    ensures var r := Parse(BeforeToken(table, names, values) + ([t] + more));
            r.Some? ==>
              r.value.Insert? && r.value.table == table && r.value.columns == Some(names) &&
              |r.value.values| > |values| && r.value.values[|values|] == TextLit(t.text)
  {
    hide ItemTokens, ParseItems;
    var ts, tail := BeforeToken(table, names, values) + ([t] + more), Lead(Literals(values)) + ([t] + more);
    assert ts[4..] == ItemTokens(Words(names)) + ([RParen] + ([VALUES, LParen] + tail));
    assert ts[3..][1..] == ts[4..];
    ParseItemsOf(Words(names), [RParen] + ([VALUES, LParen] + tail));
    NamesInverse(names);
    assert ([RParen] + ([VALUES, LParen] + tail))[1..] == [VALUES, LParen] + tail;
    assert ([VALUES, LParen] + tail)[2..] == tail;
    ParseLead(Literals(values), [t] + more);
    if ParseItems(tail).Some? {
      assert ParseItems(tail).value.0[|values|] == t;
    }
  }

  lemma BeforeTokenHasNoSemi(table: string, names: seq<string>, values: seq<Literal>)
    ensures Semi !in BeforeToken(table, names, values)
  {
    ItemsHaveNoSemi(Words(names));
    LeadOf(Literals(values));
    ItemsHaveNoSemi(Literals(values));
  }

  // ---------- quotes and semicolons of a statement ----------

  /** Quotes that the text values of a list take up wherever they are read from. */
  function LiteralQuotes(vs: seq<Literal>): nat {
    if vs == [] then 0 else QuotesIn(LiteralToken(vs[0])) + LiteralQuotes(vs[1..])
  }

  lemma {:induction false} LiteralQuotesSnoc(vs: seq<Literal>, v: Literal)
    ensures LiteralQuotes(vs + [v]) == LiteralQuotes(vs) + QuotesIn(LiteralToken(v))
  {
    if vs == [] {
      assert [] + [v] == [v] && [v][1..] == [];
    } else {
      assert (vs + [v])[1..] == vs[1..] + [v];
      LiteralQuotesSnoc(vs[1..], v);
    }
  }

  /** The values a statement carries, in order. */
  function ValuesOf(s: Statement): seq<Literal> {
    match s
    case Insert(_, _, values) => values
    case Select(_, _, conditions) => ConditionValues(conditions)
  }

  function ConditionValues(cs: seq<Condition>): seq<Literal> {
    seq(|cs|, i requires 0 <= i < |cs| => cs[i].value)
  }

  lemma QuotelessTokens(ts: seq<Token>)
    requires forall t :: t in ts ==> !t.Text?
    ensures TokenQuotes(ts) == 0
  {
    if ts != [] {
      QuotelessTokens(ts[1..]);
    }
  }

  lemma {:induction false} ItemQuotes(items: seq<Token>)
    ensures TokenQuotes(ItemTokens(items)) == TokenQuotes(items)
  {
    if |items| > 1 {
      ItemQuotes(items[1..]);
      assert ItemTokens(items)[1..] == [Comma] + ItemTokens(items[1..]);
      assert ([Comma] + ItemTokens(items[1..]))[1..] == ItemTokens(items[1..]);
    }
  }

  lemma {:induction false} LiteralTokenQuotes(vs: seq<Literal>)
    ensures TokenQuotes(Literals(vs)) == LiteralQuotes(vs)
  {
    if vs != [] {
      LiteralTokenQuotes(vs[1..]);
      assert Literals(vs)[1..] == Literals(vs[1..]);
    }
  }

  lemma OneConditionQuotes(c: Condition)
    ensures TokenQuotes(OneCondition(c)) == QuotesIn(LiteralToken(c.value))
  {
    var ts := OneCondition(c);
    var v := LiteralToken(c.value);
    assert ts == [Word(c.column), Op(c.symbol)] + [v] && [v][1..] == [];
    TokenQuotesConcat([Word(c.column), Op(c.symbol)], [v]);
    QuotelessTokens([Word(c.column), Op(c.symbol)]);
    assert TokenQuotes([v]) == QuotesIn(v) + TokenQuotes([v][1..]);
  }

  lemma {:induction false} ConditionQuotes(cs: seq<Condition>)
    ensures TokenQuotes(ConditionTokens(cs)) == LiteralQuotes(ConditionValues(cs))
  {
    if cs != [] {
      OneConditionQuotes(cs[0]);
      assert ConditionValues(cs)[1..] == ConditionValues(cs[1..]);
      if |cs| > 1 {
        ConditionQuotes(cs[1..]);
        var more := ConditionTokens(cs[1..]);
        TokenQuotesConcat(OneCondition(cs[0]), [AND] + more);
        assert ([AND] + more)[1..] == more;
      }
    }
  }

  /** Only the values of a statement take up quotes. */
  lemma StatementQuotes(s: Statement)
    ensures TokenQuotes(Tokens(s)) == LiteralQuotes(ValuesOf(s))
  {
    hide TokenQuotes, ItemTokens, ConditionTokens, LiteralQuotes;
    match s
    case Insert(table, columns, values) =>
      var items := ItemTokens(Literals(values));
      TokenQuotesConcat([INSERT, INTO, Word(table)], ColumnsTokens(columns) + ValuesTokens(values));
      TokenQuotesConcat(ColumnsTokens(columns), ValuesTokens(values));
      QuotelessTokens([INSERT, INTO, Word(table)]);
      ColumnQuotes(columns);
      TokenQuotesConcat([VALUES, LParen] + items, [RParen, Semi]);
      TokenQuotesConcat([VALUES, LParen], items);
      QuotelessTokens([VALUES, LParen]);
      QuotelessTokens([RParen, Semi]);
      ItemQuotes(Literals(values));
      LiteralTokenQuotes(values);
    case Select(target, table, conditions) =>
      var head := [SELECT, TargetToken(target), FROM, Word(table), WHERE, LParen];
      TokenQuotesConcat(head, ConditionTokens(conditions) + [RParen, Semi]);
      TokenQuotesConcat(ConditionTokens(conditions), [RParen, Semi]);
      QuotelessTokens(head);
      QuotelessTokens([RParen, Semi]);
      ConditionQuotes(conditions);
  }

  lemma ColumnQuotes(columns: Option<seq<string>>)
    ensures TokenQuotes(ColumnsTokens(columns)) == 0
  {
    hide TokenQuotes, ItemTokens;
    if columns.Some? {
      var items := ItemTokens(Words(columns.value));
      TokenQuotesConcat([LParen] + items, [RParen]);
      TokenQuotesConcat([LParen], items);
      ItemQuotes(Words(columns.value));
      QuotelessTokens(Words(columns.value));
      QuotelessTokens([LParen]);
      QuotelessTokens([RParen]);
    } else {
      QuotelessTokens([]);
    }
  }

  /** A text that parses has exactly the double quotes its values take up. */
  lemma ParsedQuotes(text: string, s: Statement)
    requires ParseText(text) == Some(s)
    ensures Count(text, '\"') == LiteralQuotes(ValuesOf(s))
  {
    hide Lex, Parse, Tokens, TokenQuotes;
    ParseIsExact(Lex(text).value);
    LexQuotes(text, Lex(text).value);
    StatementQuotes(s);
  }

  /** One past the first semicolon, or 0 if there is none. */
  function SemiEnd(ts: seq<Token>): (n: nat)
    ensures n <= |ts|
    ensures n > 0 ==> ts[n - 1].Semi?
  {
    if ts == [] then 0
    else if ts[0].Semi? then 1
    else var n := SemiEnd(ts[1..]); if n == 0 then 0 else n + 1
  }

  lemma {:induction false} SemiEndOf(front: seq<Token>)
    requires Semi !in front
    ensures SemiEnd(front + [Semi]) == |front| + 1
  {
    if front != [] {
      assert (front + [Semi])[1..] == front[1..] + [Semi];
      SemiEndOf(front[1..]);
    }
  }

  lemma {:induction false} SemiEndPrefix(front: seq<Token>, rest: seq<Token>)
    requires SemiEnd(front) > 0
    ensures SemiEnd(front + rest) == SemiEnd(front)
  {
    if !front[0].Semi? {
      assert (front + rest)[1..] == front[1..] + rest;
      SemiEndPrefix(front[1..], rest);
    }
  }

  lemma {:induction false} SemiEndCount(ts: seq<Token>)
    requires SemiEnd(ts) > 0
    ensures SemiCount(ts) == 1 + SemiCount(ts[SemiEnd(ts)..])
  {
    if !ts[0].Semi? {
      SemiEndCount(ts[1..]);
      assert ts[SemiEnd(ts)..] == ts[1..][SemiEnd(ts[1..])..];
    }
  }

  lemma {:induction false} ItemsHaveNoSemi(items: seq<Token>)
    requires Semi !in items
    ensures Semi !in ItemTokens(items)
  {
    if |items| > 1 {
      ItemsHaveNoSemi(items[1..]);
    }
  }

  lemma {:induction false} ConditionsHaveNoSemi(cs: seq<Condition>)
    ensures Semi !in ConditionTokens(cs)
  {
    if |cs| > 1 {
      ConditionsHaveNoSemi(cs[1..]);
    }
  }

  /** A statement's tokens hold one semicolon, at their end. */
  lemma OneSemi(s: Statement)
    ensures SemiEnd(Tokens(s)) == |Tokens(s)| > 1
  {
    hide ItemTokens, ConditionTokens, SemiEnd;
    var ts := Tokens(s);
    match s {
      case Insert(_, columns, values) =>
        ItemsHaveNoSemi(Literals(values));
        if columns.Some? {
          ItemsHaveNoSemi(Words(columns.value));
        }
      case Select(_, _, conditions) =>
        ConditionsHaveNoSemi(conditions);
    }
    assert ts == ts[..|ts| - 1] + [Semi];
    SemiEndOf(ts[..|ts| - 1]);
  }
}
