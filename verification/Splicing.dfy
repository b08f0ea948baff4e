/**
 Splicing further values into an insert that is already printed (`add_condition_to_insert_query`): the
 new value goes before the last closing parenthesis of the text, whatever the values already there hold.
 */
module Splicing {
  import opened Core
  import opened SqlLexer
  import opened SqlParser
  import opened QueryBuilder

  /** A statement text held by the caller and updated through a pointer. */
  class QueryText {
    var text: string

    constructor (text: string)
      ensures this.text == text
    {
      this.text := text;
    }
  }

  /** The index of the last `c` in `s`, or -1: `std::string::find_last_of` for one character. */
  function FindLast(s: string, c: char): (i: int)
    ensures -1 <= i < |s|
    ensures i >= 0 ==> s[i] == c
    ensures forall j :: i < j < |s| ==> s[j] != c
    ensures i == -1 <==> c !in s
  {
    if s == "" then -1
    else if s[|s| - 1] == c then |s| - 1
    else assert s == s[..|s| - 1] + [s[|s| - 1]]; FindLast(s[..|s| - 1], c)
  }

  function InsertAt(s: string, i: nat, x: string): string
    requires i <= |s|
  {
    s[..i] + x + s[i..]
  }

  /** The text with `x` put before its last closing parenthesis. */
  function Spliced(s: string, x: string): string
    requires ')' in s
  {
    InsertAt(s, FindLast(s, ')'), x)
  }

  function Addition(v: Literal): string {
    " , " + ToStringS(v)
  }

  /** One value. A text without a closing parenthesis makes `insert` throw and is left as it was. */
  method AddConditionToInsertQuery(query: QueryText, a0: Literal) returns (ok: bool)
    modifies query
    ensures ok <==> ')' in old(query.text)
    ensures query.text == if ok then Spliced(old(query.text), Addition(a0)) else old(query.text)
  {
    var pos := FindLast(query.text, ')');
    if pos == -1 {
      return false;
    }
    var stringAdded := " , ";
    stringAdded := stringAdded + ToStringS(a0);
    query.text := InsertAt(query.text, pos, stringAdded);
    ok := true;
  }

  /** Two values at once. */
  method AddConditionsToInsertQuery(query: QueryText, a0: Literal, a1: Literal) returns (ok: bool)
    modifies query
    ensures ok <==> ')' in old(query.text)
    ensures query.text ==
            if ok then Spliced(Spliced(old(query.text), Addition(a0)), Addition(a1)) else old(query.text)
  {
    var pos := FindLast(query.text, ')');
    if pos == -1 {
      return false;
    }
    var stringAdded := " , ";
    stringAdded := stringAdded + ToStringS(a0);
    stringAdded := stringAdded + " , ";
    stringAdded := stringAdded + ToStringS(a1);
    assert stringAdded == Addition(a0) + Addition(a1);
    SpliceTwice(query.text, Addition(a0), Addition(a1));
    query.text := InsertAt(query.text, pos, stringAdded);
    ok := true;
  }

  lemma FindLastIs(s: string, c: char, i: nat)
    requires i < |s| && s[i] == c && forall j :: i < j < |s| ==> s[j] != c
    ensures FindLast(s, c) == i
  {
    assert s[i] in s;
  }

  lemma SpliceAfter(s: string, i: nat, x: string, y: string)
    requires i <= |s|
    ensures InsertAt(InsertAt(s, i, x), i + |x|, y) == InsertAt(s, i, x + y)
  {
    var t := InsertAt(s, i, x);
    assert t[..i + |x|] == s[..i] + x && t[i + |x|..] == s[i..];
  }

  /** Whatever is spliced in, parentheses included, the next splice comes right after it. */
  lemma SpliceTwice(s: string, x: string, y: string)
    requires ')' in s
    ensures ')' in Spliced(s, x) && Spliced(Spliced(s, x), y) == Spliced(s, x + y)
  {
    var i := FindLast(s, ')');
    var t := Spliced(s, x);
    assert t[i + |x|] == s[i];
    forall j | i + |x| < j < |t| ensures t[j] != ')' {
      assert t[j] == s[j - |x|];
    }
    FindLastIs(t, ')', i + |x|);
    SpliceAfter(s, i, x, y);
  }

  /** A text that lexes to closing parentheses and semicolons only holds nothing else but blanks. */
  lemma {:induction false} MarksOnly(s: string, ts: seq<Token>)
    requires Lex(s) == Some(ts) && forall t :: t in ts ==> t == RParen || t == Semi
    ensures ')' in s ==> RParen in ts
  {
    if s != "" {
      assert s == [s[0]] + s[1..];
      if s[0] == ' ' {
        MarksOnly(s[1..], ts);
      } else {
        var t, rest := NextToken(s).value, Lex(s[NextToken(s).value.1..]).value;
        assert ts == [t.0] + rest;
        assert t.0 in ts && t.1 == 1;
        assert forall u :: u in rest ==> u in ts;
        MarksOnly(s[1..], rest);
      }
    }
  }

  /** Where the last closing parenthesis of an insert is: at the token that closes the values. */
  lemma LastParenOf(s: string, front: seq<Token>) returns (i: nat)
    requires Lex(s) == Some(front + [RParen, Semi])
    ensures ')' in s && i == FindLast(s, ')')
    ensures Lex(s[..i]) == Some(front) && Lex(s[i..]) == Some([RParen, Semi])
  {
    i := LexCut(s, front, [RParen, Semi]);
    assert s[i..][0] == s[i];
    assert s[i] == ')';
    assert [RParen, Semi] + [] == [RParen, Semi];
    var n := LexStep(s[i..], [RParen, Semi], []);
    assert n == 1 && [RParen, Semi][1..] + [] == [Semi];
    assert s[i..][1..] == s[i + 1..];
    MarksOnly(s[i + 1..], [Semi]);
    forall j | i < j < |s| ensures s[j] != ')' {
      assert s[j] == s[i + 1..][j - i - 1];
    }
    FindLastIs(s, ')', i);
  }

  /** Main result: in any text that parses as an insert, splicing a value yields a text that parses to the
      same insert with that value at the end. */
  lemma SpliceAddsValue(s: string, table: string, columns: Option<seq<string>>, values: seq<Literal>, v: Literal)
    requires ParseText(s) == Some(Insert(table, columns, values)) && Printable(v)
    ensures ')' in s
    ensures ParseText(Spliced(s, Addition(v))) == Some(Insert(table, columns, values + [v]))
  {
    hide Lex, Parse;
    ParseIsExact(Lex(s).value);
    var front := TokensWithValue(table, columns, values, v);
    var i := LastParenOf(s, front);
    LexLiteral(v);
    LexInsertParts();
    LexSnoc(" , ", [Comma], ToStringS(v), [LiteralToken(v)]);
    assert [Comma] + [LiteralToken(v)] == [Comma, LiteralToken(v)];
    LexSnoc(s[..i], front, Addition(v), [Comma, LiteralToken(v)]);
    LexSnoc(s[..i] + Addition(v), front + [Comma, LiteralToken(v)], s[i..], [RParen, Semi]);
    ParseTokens(Insert(table, columns, values + [v]));
  }

  /** The unescaped quoting is the only limit: the spliced string is read back exactly when it holds no
      double quote. */
  lemma SpliceIsFaithful(s: string, table: string, columns: Option<seq<string>>, values: seq<Literal>, t: string)
    requires ParseText(s) == Some(Insert(table, columns, values))
    ensures ')' in s
    ensures ParseText(Spliced(s, Addition(TextLit(t)))) == Some(Insert(table, columns, values + [TextLit(t)]))
            <==> QuoteFree(t)
  {
    hide Lex, Parse;
    SpliceAddsValue(s, table, columns, values, IntLit(0));
    var s' := Spliced(s, Addition(TextLit(t)));
    if QuoteFree(t) {
      SpliceAddsValue(s, table, columns, values, TextLit(t));
    } else if ParseText(s') == Some(Insert(table, columns, values + [TextLit(t)])) {
      hide Spliced;
      ParsedQuotes(s, Insert(table, columns, values));
      ParsedQuotes(s', Insert(table, columns, values + [TextLit(t)]));
      LiteralQuotesSnoc(values, TextLit(t));
      SplicedQuotes(s, t);
      CountNone(t, '\"');
    }
  }

  lemma SplicedQuotes(s: string, t: string)
    requires ')' in s
    ensures Count(Spliced(s, Addition(TextLit(t))), '\"') == Count(s, '\"') + 2 + Count(t, '\"')
  {
    var i, x := FindLast(s, ')'), Addition(TextLit(t));
    CountSplit(s, i, '\"');
    CountConcat(s[..i] + x, s[i..], '\"');
    CountConcat(s[..i], x, '\"');
    CountConcat(" , ", ToStringS(TextLit(t)), '\"');
    CountNone(" , ", '\"');
    QuotedCount(t, '\"');
  }

  function SpliceAll(s: string, vs: seq<Literal>): string
    requires ')' in s
    decreases |vs|
  {
    if vs == [] then s
    else SpliceTwice(s, Addition(vs[0]), ""); SpliceAll(Spliced(s, Addition(vs[0])), vs[1..])
  }

  /** Any number of splices, in order. */
  lemma {:induction false} SpliceAllAddsValues(s: string, table: string, columns: Option<seq<string>>,
      values: seq<Literal>, vs: seq<Literal>)
    requires ParseText(s) == Some(Insert(table, columns, values)) && AllPrintable(vs)
    ensures ')' in s && ParseText(SpliceAll(s, vs)) == Some(Insert(table, columns, values + vs))
    decreases |vs|
  {
    hide Lex, Parse, ParseText, Spliced, Addition;
    SpliceAddsValue(s, table, columns, values, IntLit(0));
    if vs == [] {
      assert values + vs == values;
    } else {
      SpliceAddsValue(s, table, columns, values, vs[0]);
      SpliceAllAddsValues(Spliced(s, Addition(vs[0])), table, columns, values + [vs[0]], vs[1..]);
      assert values + [vs[0]] + vs[1..] == values + vs;
    }
  }
}
