/** The text a signature covers: the signed fields, one to a line. */
module CanonicalText {
  import opened Text

  predicate OneLine(s: string) {
    forall i :: 0 <= i < |s| ==> s[i] != '\n'
  }

  function Lines(fields: seq<string>): string {
    if fields == [] then ""
    else if |fields| == 1 then fields[0]
    else fields[0] + ['\n'] + Lines(fields[1..])
  }

  lemma FirstBreak(x: string, s: string, y: string, t: string)
    requires OneLine(x) && OneLine(y) && x + ['\n'] + s == y + ['\n'] + t
    ensures x == y && s == t
  {
    var text := x + ['\n'] + s;
    assert text[|x|] == '\n' && (y + ['\n'] + t)[|y|] == '\n';
    forall i | 0 <= i < |x| ensures text[i] != '\n' {
      assert text[i] == x[i];
    }
    forall i | 0 <= i < |y| ensures text[i] != '\n' {
      assert (y + ['\n'] + t)[i] == y[i];
    }
    assert x == text[..|x|] && y == text[..|y|];
    assert s == text[|x| + 1..] && t == text[|y| + 1..];
  }

  /** Joining a fixed number of fields without line breaks loses nothing. */
  lemma {:induction false} LinesInjective(a: seq<string>, b: seq<string>)
    requires |a| == |b| && Lines(a) == Lines(b)
    requires forall i :: 0 <= i < |a| ==> OneLine(a[i]) && OneLine(b[i])
    ensures a == b
  {
    if |a| > 1 {
      FirstBreak(a[0], Lines(a[1..]), b[0], Lines(b[1..]));
      LinesInjective(a[1..], b[1..]);
      assert a == [a[0]] + a[1..] && b == [b[0]] + b[1..];
    }
  }

  // ---------------------------------------------------------------------------
  // numbers and methods as text
  // ---------------------------------------------------------------------------

  function Digits(n: nat): string {
    var last := ('0' as int + n % 10) as char;
    if n < 10 then [last] else Digits(n / 10) + [last]
  }

  function Decimal(n: int): string {
    if n < 0 then "-" + Digits(-n) else Digits(n)
  }

  function ReadDigits(s: string): int {
    if s == [] then 0 else ReadDigits(s[..|s| - 1]) * 10 + (s[|s| - 1] as int - '0' as int)
  }

  predicate Digit(c: char) {
    '0' <= c <= '9'
  }

  lemma {:induction false} DigitsRead(n: nat)
    ensures ReadDigits(Digits(n)) == n
    ensures forall i :: 0 <= i < |Digits(n)| ==> Digit(Digits(n)[i])
  {
    var s := Digits(n);
    if n >= 10 {
      DigitsRead(n / 10);
      assert s[..|s| - 1] == Digits(n / 10);
    } else {
      assert s[..|s| - 1] == [];
    }
  }

  lemma DecimalInjective(m: int, n: int)
    requires Decimal(m) == Decimal(n)
    ensures m == n
  {
    DigitsRead(if m < 0 then -m else m);
    DigitsRead(if n < 0 then -n else n);
    assert m < 0 ==> Decimal(m)[0] == '-' && Decimal(m)[1..] == Digits(-m);
    assert n < 0 ==> Decimal(n)[0] == '-' && Decimal(n)[1..] == Digits(-n);
    assert m >= 0 ==> Digit(Decimal(m)[0]);
    assert n >= 0 ==> Digit(Decimal(n)[0]);
  }

  lemma DecimalIsOneLine(n: int)
    ensures OneLine(Decimal(n))
  {
    DigitsRead(if n < 0 then -n else n);
  }

  function Upper(s: string): (r: string)
    ensures |r| == |s| && (OneLine(s) ==> OneLine(r))
  {
    seq(|s|, i requires 0 <= i < |s| =>
          if 'a' <= s[i] <= 'z' then (s[i] as int - 'a' as int + 'A' as int) as char else s[i])
  }

  const CAPITALS := "ABCDEFGHIJKLMNOPQRSTUVWXYZ"

  /** Every lower-case letter becomes its capital, and every other character stays. */
  lemma UpperMeans(s: string, i: nat)
    requires i < |s|
    ensures forall k :: 0 <= k < |LETTERS| && s[i] == LETTERS[k] ==> Upper(s)[i] == CAPITALS[k]
    ensures s[i] !in LETTERS ==> Upper(s)[i] == s[i]
  {
    Alphabet();
  }
}
