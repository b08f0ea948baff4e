/**
 A lexer for the part of SQL that the server's statement builders print: alphanumeric words, decimal
 numbers, double-quoted texts (a doubled quote inside stands for one quote), comparison operators and
 punctuation. The main facts say how lexing distributes over concatenation and how a text can be cut at
 a token, which is what lets statements be built, and later spliced, piece by piece. Counting the double
 quotes of a text against its tokens says when unescaped quoting is harmless.
 */
module SqlLexer {
  import opened Core
  import opened Decimal

  datatype Token =
    | Word(word: string)
    | Number(number: int)
    | Text(text: string)
    | Op(symbol: string)
    | LParen | RParen | Comma | Semi | Star

  predicate IsAlnum(c: char) {
    'a' <= c <= 'z' || 'A' <= c <= 'Z' || IsDigit(c)
  }

  predicate IsOpChar(c: char) {
    c == '<' || c == '>' || c == '='
  }

  /** A table or column name: alphanumeric, not starting with a digit. */
  predicate IsName(s: string) {
    s != "" && !IsDigit(s[0]) && forall i :: 0 <= i < |s| ==> IsAlnum(s[i])
  }

  predicate QuoteFree(s: string) {
    '\"' !in s
  }

  function AlnumRun(s: string): (n: nat)
    ensures n <= |s|
    ensures forall i :: 0 <= i < n ==> IsAlnum(s[i])
    ensures n < |s| ==> !IsAlnum(s[n])
  {
    if s == "" || !IsAlnum(s[0]) then 0 else 1 + AlnumRun(s[1..])
  }

  /** Reads a quoted text whose opening quote is already consumed: its value and the characters used. */
  function ScanText(s: string): (r: Option<(string, nat)>)
    ensures r.Some? ==> 0 < r.value.1 <= |s|
  {
    if s == "" then None
    else if s[0] != '\"' then
      match ScanText(s[1..])
      case None => None
      case Some(rest) => Some(([s[0]] + rest.0, rest.1 + 1))
    else if |s| > 1 && s[1] == '\"' then
      match ScanText(s[2..])
      case None => None
      case Some(rest) => Some((['\"'] + rest.0, rest.1 + 2))
    else Some(("", 1))
  }

  function Punctuation(c: char): Option<Token> {
    match c
    case '(' => Some(LParen)
    case ')' => Some(RParen)
    case ',' => Some(Comma)
    case ';' => Some(Semi)
    case '*' => Some(Star)
    case _ => None
  }

  /** The first token of a text that does not start with a blank, with its length. */
  function NextToken(s: string): (r: Option<(Token, nat)>)
    requires s != "" && s[0] != ' '
    ensures r.Some? ==> 0 < r.value.1 <= |s|
  {
    if Punctuation(s[0]).Some? then Some((Punctuation(s[0]).value, 1))
    else if s[0] == '\"' then
      match ScanText(s[1..])
      case None => None
      case Some(t) => Some((Text(t.0), t.1 + 1))
    else if IsOpChar(s[0]) then
      if |s| > 1 && s[1] == '=' then Some((Op(s[..2]), 2))
      else if s[0] == '=' then None
      else Some((Op(s[..1]), 1))
    else if s[0] == '-' then
      var n := AlnumRun(s[1..]);
      if n > 0 && AllDigits(s[1..][..n]) then Some((Number(0 - ToNat(s[1..][..n])), n + 1)) else None
    else
      var n := AlnumRun(s);
      if n == 0 then None
      else if AllDigits(s[..n]) then Some((Number(ToNat(s[..n])), n))
      else if IsDigit(s[0]) then None
      else Some((Word(s[..n]), n))
  }

  function Lex(s: string): Option<seq<Token>>
    decreases |s|
  {
    if s == "" then Some([])
    else if s[0] == ' ' then Lex(s[1..])
    else
      match NextToken(s)
      case None => None
      case Some(t) =>
        match Lex(s[t.1..])
        case None => None
        case Some(rest) => Some([t.0] + rest)
  }

  /** The tokens up to the first place that does not lex, and whether there is no such place. */
  function LexAll(s: string): (seq<Token>, bool)
    decreases |s|
  {
    if s == "" then ([], true)
    else if s[0] == ' ' then LexAll(s[1..])
    else
      match NextToken(s)
      case None => ([], false)
      case Some(t) => var (rest, whole) := LexAll(s[t.1..]); ([t.0] + rest, whole)
  }

  lemma {:induction false} LexIsWhole(s: string)
    ensures Lex(s) == if LexAll(s).1 then Some(LexAll(s).0) else None
    decreases |s|
  {
    if s != "" {
      if s[0] == ' ' {
        LexIsWhole(s[1..]);
      } else if NextToken(s).Some? {
        LexIsWhole(s[NextToken(s).value.1..]);
      }
    }
  }

  /** No token can straddle the seam between `a` and `b`. */
  predicate Apart(a: string, b: string) {
    a == "" || b == "" ||
    var c, d := a[|a| - 1], b[0];
    !(IsAlnum(c) && IsAlnum(d)) && !(IsOpChar(c) && d == '=') && !(c == '\"' && d == '\"')
  }

  lemma {:induction false} ScanTextExtend(s: string, x: string)
    requires ScanText(s).Some?
    requires ScanText(s).value.1 == |s| ==> x == "" || x[0] != '\"'
    ensures ScanText(s + x) == ScanText(s)
  {
    var y := s + x;
    assert y[0] == s[0];
    if s[0] != '\"' {
      assert y[1..] == s[1..] + x;
      ScanTextExtend(s[1..], x);
    } else if |s| > 1 && s[1] == '\"' {
      assert y[1] == s[1];
      assert y[2..] == s[2..] + x;
      ScanTextExtend(s[2..], x);
    } else {
      assert |s| > 1 ==> y[1] == s[1];
      assert |s| == 1 && x != "" ==> y[1] == x[0];
    }
  }

  lemma {:induction false} ScanTextTruncate(s: string, k: nat)
    requires ScanText(s).Some? && ScanText(s).value.1 <= k <= |s|
    ensures ScanText(s[..k]) == ScanText(s)
  {
    if s[0] != '\"' {
      assert s[..k][1..] == s[1..][..k - 1];
      ScanTextTruncate(s[1..], k - 1);
    } else if |s| > 1 && s[1] == '\"' {
      assert s[..k][2..] == s[2..][..k - 2];
      ScanTextTruncate(s[2..], k - 2);
    }
  }

  /** The last character consumed by ScanText is the closing quote. */
  lemma {:induction false} ScanTextEnd(s: string)
    requires ScanText(s).Some?
    ensures s[ScanText(s).value.1 - 1] == '\"'
  {
    if s[0] != '\"' {
      ScanTextEnd(s[1..]);
    } else if |s| > 1 && s[1] == '\"' {
      ScanTextEnd(s[2..]);
    }
  }

  lemma AlnumRunIs(s: string, n: nat)
    requires n <= |s|
    requires forall i :: 0 <= i < n ==> IsAlnum(s[i])
    requires n < |s| ==> !IsAlnum(s[n])
    ensures AlnumRun(s) == n
  {
  }

  lemma NextTokenExtend(s: string, x: string)
    requires s != "" && s[0] != ' ' && NextToken(s).Some?
    requires NextToken(s).value.1 == |s| ==> Apart(s, x)
    ensures NextToken(s + x) == NextToken(s)
  {
    var n := NextToken(s).value.1;
    assert (s + x)[1..] == s[1..] + x;
    assert (s + x)[..n] == s[..n];
    if Punctuation(s[0]).Some? {
    } else if s[0] == '\"' {
      ScanTextEnd(s[1..]);
      ScanTextExtend(s[1..], x);
    } else if IsOpChar(s[0]) {
    } else if s[0] == '-' {
      assert (s[1..] + x)[..n - 1] == s[1..][..n - 1];
      AlnumRunIs((s + x)[1..], n - 1);
    } else {
      AlnumRunIs(s + x, n);
    }
  }

  lemma NextTokenTruncate(s: string, k: nat)
    requires s != "" && s[0] != ' ' && NextToken(s).Some?
    requires NextToken(s).value.1 <= k <= |s|
    ensures NextToken(s[..k]) == NextToken(s)
  {
    var n := NextToken(s).value.1;
    assert s[..k][1..] == s[1..][..k - 1];
    assert s[..k][..n] == s[..n];
    if Punctuation(s[0]).Some? {
    } else if s[0] == '\"' {
      ScanTextTruncate(s[1..], k - 1);
    } else if IsOpChar(s[0]) {
    } else if s[0] == '-' {
      assert s[1..][..k - 1][..n - 1] == s[1..][..n - 1];
      AlnumRunIs(s[..k][1..], n - 1);
    } else {
      AlnumRunIs(s[..k], n);
    }
  }

  /** Lexing a concatenation whose seam no token straddles gives the two token lists in order, as far as the
      second text lexes. */
  lemma {:induction false} LexAllAppend(a: string, b: string)
    requires LexAll(a).1 && Apart(a, b)
    ensures LexAll(a + b) == (LexAll(a).0 + LexAll(b).0, LexAll(b).1)
    decreases |a|
  {
    hide NextToken, IsAlnum, IsOpChar;
    if a == "" {
      assert a + b == b && [] + LexAll(b).0 == LexAll(b).0;
    } else if a[0] == ' ' {
      assert (a + b)[1..] == a[1..] + b;
      LexAllAppend(a[1..], b);
    } else {
      var n := NextToken(a).value.1;
      NextTokenExtend(a, b);
      assert (a + b)[n..] == a[n..] + b;
      LexAllAppend(a[n..], b);
      Prepended(NextToken(a).value.0, LexAll(a[n..]).0, LexAll(b).0);
    }
  }

  lemma Prepended(t: Token, xs: seq<Token>, ys: seq<Token>)
    ensures [t] + (xs + ys) == ([t] + xs) + ys
  {
  }

  lemma LexAppend(a: string, b: string)
    requires Lex(a).Some? && Apart(a, b)
    ensures Lex(a + b) == match Lex(b) case None => None case Some(tb) => Some(Lex(a).value + tb)
  {
    hide Lex, LexAll, Apart;
    LexIsWhole(a);
    LexIsWhole(b);
    LexIsWhole(a + b);
    LexAllAppend(a, b);
  }

  /** One step of building a text: appending a lexed piece appends its tokens. */
  lemma LexSnoc(acc: string, ta: seq<Token>, piece: string, tp: seq<Token>)
    requires Lex(acc) == Some(ta) && Lex(piece) == Some(tp) && Apart(acc, piece)
    ensures Lex(acc + piece) == Some(ta + tp)
  {
    LexAppend(acc, piece);
  }

  /** A text that lexes can be cut at any token boundary: the front keeps its tokens, and the rest begins
      with the very characters of the next token. */
  lemma {:induction false} LexCut(s: string, us: seq<Token>, vs: seq<Token>) returns (i: nat)
    requires Lex(s) == Some(us + vs) && vs != []
    ensures i < |s| && s[i] != ' ' && NextToken(s[i..]).Some? && NextToken(s[i..]).value.0 == vs[0]
    ensures Lex(s[..i]) == Some(us) && Lex(s[i..]) == Some(vs)
    decreases |s|
  {
    assert s != "";
    if s[0] == ' ' {
      var j := LexCut(s[1..], us, vs);
      i := j + 1;
      assert s[..i][1..] == s[1..][..j];
      assert s[i..] == s[1..][j..];
    } else if us == [] {
      i := 0;
      assert us + vs == vs && s[0..] == s && s[..0] == "";
    } else {
      var n := LexStep(s, us, vs);
      var j := LexCut(s[n..], us[1..], vs);
      i := j + n;
      assert s[i..] == s[n..][j..];
      LexStepBack(s, n, i, us);
    }
  }

  lemma LexStep(s: string, us: seq<Token>, vs: seq<Token>) returns (n: nat)
    requires s != "" && s[0] != ' ' && us != [] && Lex(s) == Some(us + vs)
    ensures n <= |s| && NextToken(s) == Some((us[0], n)) && Lex(s[n..]) == Some(us[1..] + vs)
  {
    n := NextToken(s).value.1;
    var rest := Lex(s[n..]).value;
    assert us + vs == [NextToken(s).value.0] + rest;
    assert us[0] == (us + vs)[0] == NextToken(s).value.0;
    assert rest == (us + vs)[1..] == us[1..] + vs;
  }

  lemma LexStepBack(s: string, n: nat, i: nat, us: seq<Token>)
    requires s != "" && s[0] != ' ' && us != [] && 0 < n <= i <= |s|
    requires NextToken(s) == Some((us[0], n)) && Lex(s[n..][..i - n]) == Some(us[1..])
    ensures Lex(s[..i]) == Some(us)
  {
    NextTokenTruncate(s, i);
    assert s[..i][n..] == s[n..][..i - n];
    assert [us[0]] + us[1..] == us;
  }

  lemma LexSingle(s: string, t: Token)
    requires s != "" && s[0] != ' ' && NextToken(s) == Some((t, |s|))
    ensures Lex(s) == Some([t])
  {
    assert s[|s|..] == "";
    assert [t] + [] == [t];
  }

  lemma LexName(w: string)
    requires IsName(w)
    ensures Lex(w) == Some([Word(w)])
  {
    AlnumRunIs(w, |w|);
    assert w[..|w|] == w;
    assert !IsDigit(w[0]);
    LexSingle(w, Word(w));
  }

  lemma LexInt(n: int)
    ensures Lex(OfInt(n)) == Some([Number(n)])
    ensures var s := OfInt(n); s != "" && IsDigit(s[|s| - 1]) && (s[0] == '-' || IsDigit(s[0]))
  {
    var d := OfNat(if n < 0 then -n else n);
    NatRoundTrip(if n < 0 then -n else n);
    assert d[..|d|] == d;
    AlnumRunIs(d, |d|);
    assert IsDigit(d[0]) && IsDigit(d[|d| - 1]);
    if n < 0 {
      assert OfInt(n)[1..] == d;
    }
    LexSingle(OfInt(n), Number(n));
  }

  lemma {:induction false} ScanQuoted(v: string)
    requires QuoteFree(v)
    ensures ScanText(v + "\"") == Some((v, |v| + 1))
  {
    if v != "" {
      assert (v + "\"")[1..] == v[1..] + "\"";
      ScanQuoted(v[1..]);
      assert v == [v[0]] + v[1..];
    }
  }

  function QuoteMarks(k: nat): string {
    seq(k, _ => '\"')
  }

  /** Reading a text up to a quote that none follows never yields that text behind further quotes. */
  lemma {:induction false} NoQuotesGained(u: string, q: string, k: nat)
    requires k >= 1 && (q == "" || q[0] != '\"')
    ensures ScanText(u + "\"" + q).Some? ==> ScanText(u + "\"" + q).value.0 != QuoteMarks(k) + u
    decreases |u|
  {
    var s, w := u + "\"" + q, QuoteMarks(k) + u;
    assert w[0] == '\"';
    if u == "" {
      assert s == "\"" + q && s[1..] == q;
    } else if u[0] == '\"' {
      if |u| == 1 {
        assert s[2..] == q && w[1] == '\"';
        assert q != "" && ScanText(q).Some? ==> ScanText(q).value.0[0] == q[0];
      } else if u[1] == '\"' {
        assert s[2..] == u[2..] + "\"" + q;
        NoQuotesGained(u[2..], q, k + 1);
        assert w[1..] == QuoteMarks(k + 1) + u[2..];
      }
    }
  }

  /** A quoted string with a double quote inside never reads back as itself, whatever but a quote follows. */
  lemma {:induction false} QuotedIsMisread(v: string, q: string)
    requires !QuoteFree(v) && (q == "" || q[0] != '\"')
    ensures ScanText(v + "\"" + q).Some? ==> ScanText(v + "\"" + q).value.0 != v
  {
    var s := v + "\"" + q;
    if v[0] != '\"' {
      assert s[1..] == v[1..] + "\"" + q;
      QuotedIsMisread(v[1..], q);
      assert ScanText(s).Some? ==> ScanText(s).value.0[1..] == ScanText(s[1..]).value.0;
    } else if |v| == 1 {
      assert s[2..] == q;
      assert q != "" && ScanText(q).Some? ==> ScanText(q).value.0[0] == q[0];
    } else if v[1] == '\"' {
      assert s[2..] == v[2..] + "\"" + q;
      NoQuotesGained(v[2..], q, 1);
      assert v[1..] == QuoteMarks(1) + v[2..];
      assert ScanText(s).Some? ==> ScanText(s).value.0[1..] == ScanText(s[2..]).value.0;
    }
  }

  lemma FirstIsText(s: string)
    requires s != "" && s[0] == '\"'
    ensures var (ts, whole) := LexAll(s);
            if ScanText(s[1..]).Some? then ts != [] && ts[0] == Text(ScanText(s[1..]).value.0) else ts == [] && !whole
  {
  }

  // ---------- counting characters ----------

  function Count(s: string, c: char): nat {
    if s == "" then 0 else (if s[0] == c then 1 else 0) + Count(s[1..], c)
  }

  lemma {:induction false} CountConcat(a: string, b: string, c: char)
    ensures Count(a + b, c) == Count(a, c) + Count(b, c)
  {
    if a == "" {
      assert a + b == b;
    } else {
      assert (a + b)[1..] == a[1..] + b;
      CountConcat(a[1..], b, c);
    }
  }

  lemma {:induction false} CountNone(s: string, c: char)
    ensures Count(s, c) == 0 <==> c !in s
  {
    if s != "" {
      CountNone(s[1..], c);
      assert s == [s[0]] + s[1..];
    }
  }

  lemma CountOne(d: char, c: char)
    ensures Count([d], c) == if d == c then 1 else 0
  {
    assert [d][1..] == "";
  }

  lemma CountSplit(s: string, n: nat, c: char)
    requires n <= |s|
    ensures Count(s, c) == Count(s[..n], c) + Count(s[n..], c)
  {
    assert s == s[..n] + s[n..];
    CountConcat(s[..n], s[n..], c);
  }

  /** Quotes a token takes up in any text it is read from: a text token has its two and two for each of its
      own. */
  function QuotesIn(t: Token): nat {
    if t.Text? then 2 + 2 * Count(t.text, '\"') else 0
  }

  function TokenQuotes(ts: seq<Token>): nat {
    if ts == [] then 0 else QuotesIn(ts[0]) + TokenQuotes(ts[1..])
  }

  lemma {:induction false} TokenQuotesConcat(a: seq<Token>, b: seq<Token>)
    ensures TokenQuotes(a + b) == TokenQuotes(a) + TokenQuotes(b)
  {
    if a == [] {
      assert a + b == b;
    } else {
      assert (a + b)[1..] == a[1..] + b;
      TokenQuotesConcat(a[1..], b);
    }
  }

  /** A quoted text is read off twice its quotes and the closing one. */
  lemma {:induction false} ScanQuotes(s: string)
    requires ScanText(s).Some?
    ensures var (t, n) := ScanText(s).value; Count(s[..n], '\"') == 2 * Count(t, '\"') + 1
  {
    var (t, n) := ScanText(s).value;
    if s[0] != '\"' {
      ScanQuotes(s[1..]);
      assert s[..n][1..] == s[1..][..n - 1] && t[1..] == ScanText(s[1..]).value.0;
    } else if |s| > 1 && s[1] == '\"' {
      ScanQuotes(s[2..]);
      assert s[..n][1..][1..] == s[2..][..n - 2] && t[1..] == ScanText(s[2..]).value.0;
    } else {
      CountOne('\"', '\"');
      assert s[..1] == "\"";
    }
  }

  lemma NextTokenQuotes(s: string)
    requires s != "" && s[0] != ' ' && NextToken(s).Some?
    ensures var (t, n) := NextToken(s).value; Count(s[..n], '\"') == QuotesIn(t)
  {
    var (t, n) := NextToken(s).value;
    if s[0] == '\"' {
      ScanQuotes(s[1..]);
      assert s[..n][1..] == s[1..][..n - 1];
    } else {
      forall i | 0 <= i < n ensures s[i] != '\"' {
        if s[0] == '-' && i > 0 {
          assert s[i] == s[1..][i - 1];
        }
      }
      CountNone(s[..n], '\"');
    }
  }

  /** Every double quote of a text that lexes belongs to one of its text tokens. */
  lemma {:induction false} LexQuotes(s: string, ts: seq<Token>)
    requires Lex(s) == Some(ts)
    ensures Count(s, '\"') == TokenQuotes(ts)
    decreases |s|
  {
    if s != "" {
      if s[0] == ' ' {
        LexQuotes(s[1..], ts);
      } else {
        var (t, n) := NextToken(s).value;
        NextTokenQuotes(s);
        CountSplit(s, n, '\"');
        assert ts[1..] == Lex(s[n..]).value;
        LexQuotes(s[n..], ts[1..]);
      }
    }
  }

  function SemiCount(ts: seq<Token>): nat {
    if ts == [] then 0 else (if ts[0].Semi? then 1 else 0) + SemiCount(ts[1..])
  }

  /** Only a semicolon is read as one. */
  lemma {:induction false} SemisAreSemicolons(s: string)
    ensures SemiCount(LexAll(s).0) <= Count(s, ';')
    decreases |s|
  {
    if s != "" {
      if s[0] == ' ' {
        SemisAreSemicolons(s[1..]);
      } else if NextToken(s).Some? {
        var (t, n) := NextToken(s).value;
        SemisAreSemicolons(s[n..]);
        CountSplit(s, n, ';');
        assert LexAll(s).0[1..] == LexAll(s[n..]).0;
        if t.Semi? {
          assert s[0] == ';';
        }
      }
    }
  }

  /** Quoting without escaping: the printed form of a string lexes back to that string exactly when the
      string holds no double quote. */
  lemma QuotingIsFaithful(v: string)
    ensures Lex("\"" + v + "\"") == Some([Text(v)]) <==> QuoteFree(v)
  {
    var s := "\"" + v + "\"";
    if QuoteFree(v) {
      assert s[1..] == v + "\"";
      ScanQuoted(v);
      LexSingle(s, Text(v));
    } else if Lex(s) == Some([Text(v)]) {
      assert [Text(v)][1..] == [];
      QuotedCount(v, '\"');
      CountNone(v, '\"');
      LexQuotes(s, [Text(v)]);
    }
  }

  lemma QuotedCount(v: string, c: char)
    ensures Count("\"" + v + "\"", c) == Count(v, c) + if c == '\"' then 2 else 0
  {
    CountConcat("\"" + v, "\"", c);
    CountConcat("\"", v, c);
    CountOne('\"', c);
  }
}
