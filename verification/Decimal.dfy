/**
 Decimal text of integers: what `std::to_string` prints and what `std::stoi` reads back.
 */
module Decimal {
  import opened Core

  predicate IsDigit(c: char) {
    '0' <= c <= '9'
  }

  predicate AllDigits(s: string) {
    forall i :: 0 <= i < |s| ==> IsDigit(s[i])
  }

  function OfNat(n: nat): string {
    if n < 10 then ['0' + n as char] else OfNat(n / 10) + ['0' + (n % 10) as char]
  }

  function OfInt(n: int): string {
    if n < 0 then "-" + OfNat(-n) else OfNat(n)
  }

  function ToNat(s: string): nat
    requires AllDigits(s)
  {
    if s == "" then 0 else ToNat(s[..|s| - 1]) * 10 + (s[|s| - 1] - '0') as int
  }

  lemma {:induction false} NatRoundTrip(n: nat)
    ensures OfNat(n) != "" && AllDigits(OfNat(n)) && ToNat(OfNat(n)) == n
  {
    if n < 10 {
      assert ToNat(OfNat(n)[..0]) == 0;
    } else {
      NatRoundTrip(n / 10);
      assert OfNat(n)[..|OfNat(n)| - 1] == OfNat(n / 10);
    }
  }

  function DigitRun(s: string): (n: nat)
    ensures n <= |s| && AllDigits(s[..n])
    ensures n < |s| ==> !IsDigit(s[n])
  {
    if s == "" || !IsDigit(s[0]) then 0 else 1 + DigitRun(s[1..])
  }

  /** White space, as the number readers skip it. */
  predicate IsBlank(c: char) {
    c == ' ' || 9 <= c as int <= 13
  }

  /** `std::stoi`: leading blanks, an optional sign, then the longest run of digits; anything may follow.
      It throws, here None, when there is no digit to read. */
  function Stoi(s: string): Option<int>
    decreases |s|
  {
    if s != "" && IsBlank(s[0]) then Stoi(s[1..])
    else if s != "" && s[0] == '-' then
      var n := DigitRun(s[1..]);
      if n == 0 then None else Some(0 - ToNat(s[1..][..n]))
    else if s != "" && s[0] == '+' then
      var n := DigitRun(s[1..]);
      if n == 0 then None else Some(ToNat(s[1..][..n]))
    else
      var n := DigitRun(s);
      if n == 0 then None else Some(ToNat(s[..n]))
  }

  lemma {:induction false} DigitRunAll(s: string)
    requires AllDigits(s)
    ensures DigitRun(s) == |s|
  {
    if s != "" {
      DigitRunAll(s[1..]);
    }
  }

  lemma {:induction false} DigitRunPrefix(s: string, tail: string)
    requires AllDigits(s) && (tail == "" || !IsDigit(tail[0]))
    ensures DigitRun(s + tail) == |s|
  {
    if s == "" {
      assert s + tail == tail;
    } else {
      assert (s + tail)[1..] == s[1..] + tail;
      DigitRunPrefix(s[1..], tail);
    }
  }

  lemma StoiDigits(n: nat, tail: string)
    requires tail == "" || !IsDigit(tail[0])
    ensures Stoi(OfNat(n) + tail) == Some(n)
    ensures Stoi("+" + OfNat(n) + tail) == Some(n) && Stoi("-" + OfNat(n) + tail) == Some(0 - n)
  {
    NatRoundTrip(n);
    var s := OfNat(n);
    hide OfNat, ToNat, DigitRun, IsBlank;
    DigitRunPrefix(s, tail);
    assert (s + tail)[..|s|] == s;
    var plus, minus := "+" + s + tail, "-" + s + tail;
    assert plus[1..] == s + tail && minus[1..] == s + tail;
    NotBlank(s[0]);
    NotBlank('+');
    NotBlank('-');
    assert (s + tail)[0] == s[0] && plus[0] == '+' && minus[0] == '-';
  }

  lemma NotBlank(c: char)
    ensures IsDigit(c) || c == '+' || c == '-' ==> !IsBlank(c)
  {
  }

  lemma {:induction false} StoiSkipsBlanks(blanks: string, s: string)
    requires forall i :: 0 <= i < |blanks| ==> IsBlank(blanks[i])
    ensures Stoi(blanks + s) == Stoi(s)
  {
    if blanks == "" {
      assert blanks + s == s;
    } else {
      assert (blanks + s)[1..] == blanks[1..] + s;
      StoiSkipsBlanks(blanks[1..], s);
    }
  }

  lemma Regrouped(a: string, b: string, c: string)
    ensures a + b + c == a + (b + c)
  {
  }

  /** Behind any blanks the decimal text of an integer reads back, whatever follows that is not a digit; a
      positive one may carry a plus sign. */
  lemma StoiReads(blanks: string, n: int, tail: string)
    requires (forall i :: 0 <= i < |blanks| ==> IsBlank(blanks[i])) && (tail == "" || !IsDigit(tail[0]))
    ensures Stoi(blanks + OfInt(n) + tail) == Some(n)
    ensures n >= 0 ==> Stoi(blanks + "+" + OfInt(n) + tail) == Some(n)
  {
    hide Stoi, OfNat, IsDigit, IsBlank;
    StoiDigits(if n < 0 then -n else n, tail);
    StoiSkipsBlanks(blanks, OfInt(n) + tail);
    StoiSkipsBlanks(blanks, "+" + OfInt(n) + tail);
    Regrouped(blanks, OfInt(n), tail);
    Regrouped(blanks, "+" + OfInt(n), tail);
    Regrouped(blanks, "+", OfInt(n));
  }

  lemma StoiRoundTrip(n: int)
    ensures Stoi(OfInt(n)) == Some(n)
  {
    StoiReads("", n, "");
    assert "" + OfInt(n) + "" == OfInt(n);
  }

  function DropBlanks(s: string): string {
    if s != "" && IsBlank(s[0]) then DropBlanks(s[1..]) else s
  }

  /** It throws exactly when no digit stands behind the blanks and at most one sign. */
  lemma {:induction false} StoiThrows(s: string)
    ensures Stoi(s).None? <==>
              var t := DropBlanks(s);
              t == "" || (!IsDigit(t[0]) && (t[0] !in "+-" || |t| == 1 || !IsDigit(t[1])))
    decreases |s|
  {
    if s != "" && IsBlank(s[0]) {
      StoiThrows(s[1..]);
    }
  }

  // ---------- texts that an integer column takes for numbers ----------

  function DropEndBlanks(s: string): string {
    if s != "" && IsBlank(s[|s| - 1]) then DropEndBlanks(s[..|s| - 1]) else s
  }

  /** The integer a text is, between blanks: an optional sign and digits, nothing else. */
  function AsInteger(s: string): Option<int> {
    var t := DropEndBlanks(DropBlanks(s));
    if t == "" then None
    else if t[0] == '-' || t[0] == '+' then
      if |t| > 1 && AllDigits(t[1..]) then Some(if t[0] == '-' then 0 - ToNat(t[1..]) else ToNat(t[1..])) else None
    else if AllDigits(t) then Some(ToNat(t))
    else None
  }

  /** The decimal text of an integer is that integer. */
  lemma AsIntegerOf(n: int)
    ensures AsInteger(OfInt(n)) == Some(n)
  {
    var s := OfNat(if n < 0 then -n else n);
    NatRoundTrip(if n < 0 then -n else n);
    var t := OfInt(n);
    assert IsDigit(s[0]) && IsDigit(s[|s| - 1]);
    assert DropBlanks(t) == t && DropEndBlanks(t) == t;
    if n < 0 {
      assert t[1..] == s;
    }
  }

  /** What an integer column takes for an integer, `stoi` reads as the same integer. */
  lemma AsIntegerIsRead(s: string)
    requires AsInteger(s).Some?
    ensures Stoi(s) == AsInteger(s)
  {
    var t := DropEndBlanks(DropBlanks(s));
    var tail := BlankTail(DropBlanks(s));
    StoiBehindBlanks(s);
    assert DropBlanks(s) == t + tail && !IsBlank(t[0]);
    var digits := if t[0] == '-' || t[0] == '+' then t[1..] else t;
    DigitRunPrefix(digits, tail);
    assert (digits + tail)[..|digits|] == digits;
    assert t[0] == '-' || t[0] == '+' ==> (t + tail)[1..] == digits + tail;
  }

  lemma {:induction false} StoiBehindBlanks(s: string)
    ensures Stoi(s) == Stoi(DropBlanks(s)) && (DropBlanks(s) == "" || !IsBlank(DropBlanks(s)[0]))
  {
    if s != "" && IsBlank(s[0]) {
      StoiBehindBlanks(s[1..]);
    }
  }

  lemma {:induction false} BlankTail(s: string) returns (tail: string)
    ensures s == DropEndBlanks(s) + tail && (tail == "" || !IsDigit(tail[0]))
  {
    tail := "";
    if s != "" && IsBlank(s[|s| - 1]) {
      tail := BlankTail(s[..|s| - 1]);
      tail := tail + s[|s| - 1..];
    }
  }

  function Pow10(k: nat): nat {
    if k == 0 then 1 else 10 * Pow10(k - 1)
  }

  lemma {:induction false} DecimalLength(n: nat, k: nat)
    requires k >= 1 && n < Pow10(k)
    ensures |OfNat(n)| <= k
    decreases k
  {
    if n >= 10 {
      assert Pow10(1) == 10;
      DecimalLength(n / 10, k - 1);
    }
  }
}
