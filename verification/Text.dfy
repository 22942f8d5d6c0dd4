/** The slices of Go's strings and strconv packages the field names rest on. */
module Text {
  import opened Words
  import opened Wrappers

  function Digit(d: nat): char
    requires d < 10
  {
    '0' + d as char
  }

  predicate IsDigit(c: char)
  {
    '0' <= c <= '9'
  }

  /** strconv.Itoa on a number that is not negative. */
  function Itoa(n: nat): (s: string)
    ensures |s| > 0 && forall i | 0 <= i < |s| :: IsDigit(s[i])
  {
    if n < 10 then [Digit(n)] else Itoa(n / 10) + [Digit(n % 10)]
  }

  function DigitsValue(s: string): Option<nat>
  {
    if s == [] then Some(0)
    else
      var c := s[|s| - 1];
      match DigitsValue(s[..|s| - 1])
      case None => None
      case Some(v) => if IsDigit(c) then Some(10 * v + (c - '0') as nat) else None
  }

  /** strconv.Atoi: an optional sign, at least one digit, and the range of a 64-bit int. */
  function Atoi(s: string): Option<int>
  {
    var signed := s != [] && (s[0] == '+' || s[0] == '-');
    var digits := if signed then s[1..] else s;
    if digits == [] then None
    else match DigitsValue(digits)
      case None => None
      case Some(v) =>
        var n: int := if s[0] == '-' then 0 - v else v;
        if 0 - Pow2(63) <= n < Pow2(63) then Some(n) else None
  }

  /** strings.Split on a one-character separator. */
  function Split(s: string, sep: char): (parts: seq<string>)
    ensures |parts| > 0
  {
    if s == [] then [[]]
    else
      var rest := Split(s[1..], sep);
      if s[0] == sep then [[]] + rest else [[s[0]] + rest[0]] + rest[1..]
  }

  lemma {:induction false} SplitNone(s: string, sep: char)
    requires sep !in s
    ensures Split(s, sep) == [s]
  {
    if s != [] {
      SplitNone(s[1..], sep);
      assert [s[0]] + s[1..] == s;
    }
  }

  lemma {:induction false} SplitOnce(a: string, sep: char, b: string)
    requires sep !in a && sep !in b
    ensures Split(a + [sep] + b, sep) == [a, b]
  {
    var s := a + [sep] + b;
    if a == [] {
      SplitNone(b, sep);
      assert s[1..] == b;
    } else {
      SplitOnce(a[1..], sep, b);
      assert s[1..] == a[1..] + [sep] + b;
      assert [a[0]] + a[1..] == a;
    }
  }

  lemma {:induction false} SplitLength(a: string, sep: char, b: string)
    ensures |Split(a + [sep] + b, sep)| == |Split(a, sep)| + |Split(b, sep)|
  {
    var s := a + [sep] + b;
    if a == [] {
      assert s[1..] == b;
    } else {
      SplitLength(a[1..], sep, b);
      assert s[1..] == a[1..] + [sep] + b;
    }
  }

  lemma {:induction false} DigitsValueOfItoa(n: nat)
    ensures DigitsValue(Itoa(n)) == Some(n)
  {
    if n < 10 {
      assert Itoa(n)[..0] == [];
    } else {
      DigitsValueOfItoa(n / 10);
      assert Itoa(n)[..|Itoa(n)| - 1] == Itoa(n / 10);
    }
  }

  /** Printing a number and parsing it back gives the number, unless it leaves the int range. */
  lemma AtoiOfItoa(n: nat)
    ensures Atoi(Itoa(n)) == if n < Pow2(63) then Some(n) else None
  {
    hide Pow2, Itoa, DigitsValue;
    DigitsValueOfItoa(n);
    assert IsDigit(Itoa(n)[0]);
  }

  lemma {:induction false} DigitsOnly(s: string)
    ensures DigitsValue(s).Some? <==> forall i | 0 <= i < |s| :: IsDigit(s[i])
  {
    if s != [] {
      DigitsOnly(s[..|s| - 1]);
      assert forall i | 0 <= i < |s| - 1 :: s[i] == s[..|s| - 1][i];
    }
  }

  /** A leading sign is taken, a minus down to the least 64-bit int. */
  lemma SignedNumbers(n: nat)
    ensures Atoi("+" + Itoa(n)) == if n < Pow2(63) then Some(n) else None
    ensures Atoi("-" + Itoa(n)) == if n <= Pow2(63) then Some(0 - n) else None
  {
    hide Pow2, Itoa, DigitsValue;
    DigitsValueOfItoa(n);
    assert ("+" + Itoa(n))[1..] == Itoa(n) && ("-" + Itoa(n))[1..] == Itoa(n);
  }

  /** Anything without a digit, or with another character after an optional sign, is not a number. */
  lemma NotANumber(s: string)
    requires s == "" || s == "+" || s == "-"
             || (exists i :: 0 <= i < |s| && !IsDigit(s[i]) && (i > 0 || (s[0] != '+' && s[0] != '-')))
    ensures Atoi(s) == None
  {
    if 1 < |s| || (s != "" && s[0] != '+' && s[0] != '-') {
      var signed := s[0] == '+' || s[0] == '-';
      var i :| 0 <= i < |s| && !IsDigit(s[i]) && (i > 0 || (s[0] != '+' && s[0] != '-'));
      DigitsOnly(if signed then s[1..] else s);
      assert signed ==> s[1..][i - 1] == s[i];
    }
  }
}
