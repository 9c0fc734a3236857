/**
 The C library's text routines the code relies on: `%d` printing, `atoi`, `%d` scanning,
 `strchr`, `strncmp` with a literal, `strtok` and `fgets`.
 */
module Text {
  import opened Options

  newtype int32 = x: int | -0x8000_0000 <= x < 0x8000_0000

  predicate IsDigit(c: char) {
    '0' <= c <= '9'
  }

  predicate IsSpace(c: char) {
    c == ' ' || '\t' <= c <= '\r'
  }

  function Digit(d: int): char
    requires 0 <= d < 10
  {
    (d + '0' as int) as char
  }

  function Digits(n: nat): (s: string)
    ensures |s| > 0 && forall c <- s :: IsDigit(c)
  {
    if n < 10 then [Digit(n)] else Digits(n / 10) + [Digit(n % 10)]
  }

  /** `%d` */
  function Print(i: int): (s: string)
    ensures |s| > 0 && forall c <- s :: IsDigit(c) || c == '-'
  {
    if i < 0 then "-" + Digits(-i) else Digits(i)
  }

  function SkipSpaces(s: string): string {
    if s != [] && IsSpace(s[0]) then SkipSpaces(s[1..]) else s
  }

  /** The number of the leading digits, continuing from `acc`, and the text after them. */
  function TakeDigits(s: string, acc: int): (int, string)
    decreases |s|
  {
    if s != [] && IsDigit(s[0]) then TakeDigits(s[1..], 10 * acc + (s[0] as int - '0' as int)) else (acc, s)
  }

  /** `atoi` within the range of `int`: 0 when no number starts here. */
  function Atoi(s: string): int {
    var t := SkipSpaces(s);
    if t != [] && t[0] == '-' then -TakeDigits(t[1..], 0).0
    else if t != [] && t[0] == '+' then TakeDigits(t[1..], 0).0
    else TakeDigits(t, 0).0
  }

  /** `fscanf` with `%d`: fails unless a number starts here. */
  function ScanInt(s: string): Option<(int, string)> {
    var t := SkipSpaces(s);
    var signed := t != [] && (t[0] == '-' || t[0] == '+');
    var u := if signed then t[1..] else t;
    if u == [] || !IsDigit(u[0]) then None
    else
      var (v, rest) := TakeDigits(u, 0);
      Some((if signed && t[0] == '-' then -v else v, rest))
  }

  /** `strchr`: the first index of `c`, or the length when there is none. */
  function Find(s: string, c: char): (k: nat)
    ensures k <= |s| && (k < |s| ==> s[k] == c)
  {
    if s == [] || s[0] == c then 0 else 1 + Find(s[1..], c)
  }

  lemma {:induction false} NoneBefore(s: string, c: char)
    ensures c !in s[..Find(s, c)]
    ensures Find(s, c) == |s| <==> c !in s
  {
    if s != [] && s[0] != c {
      NoneBefore(s[1..], c);
      var k := Find(s, c);
      assert s == [s[0]] + s[1..] && s[..k] == [s[0]] + s[1..][..k - 1];
    }
  }

  /** `strncmp(s, prefix, strlen(prefix)) == 0` */
  predicate StartsWith(s: string, prefix: string) {
    prefix <= s
  }

  /** All tokens `strtok` returns for the two separators. */
  function Tokens(s: string, sep: char, sep': char): seq<string>
    decreases |s|
  {
    if s == [] then []
    else if s[0] == sep || s[0] == sep' then Tokens(s[1..], sep, sep')
    else
      var k := TokenEnd(s, sep, sep');
      [s[..k]] + Tokens(s[k..], sep, sep')
  }

  function TokenEnd(s: string, sep: char, sep': char): (k: nat)
    ensures k <= |s| && (s != [] && s[0] != sep && s[0] != sep' ==> k > 0)
  {
    if s == [] || s[0] == sep || s[0] == sep' then 0 else 1 + TokenEnd(s[1..], sep, sep')
  }

  /** The line `fgets` reads into a buffer of `size` bytes: up to a newline, the end, or `size - 1` bytes. */
  function Fgets(s: string, size: nat): (line: string)
    requires size > 0
    ensures line <= s && |line| <= size - 1
  {
    var k := Find(s, '\n');
    var full := if k < |s| then k + 1 else k;
    s[..if full <= size - 1 then full else size - 1]
  }

  // ---- What was printed is read back ----

  lemma {:induction false} TakeDigitsOfDigits(n: nat, t: string)
    ensures TakeDigits(Digits(n) + t, 0) == TakeDigits(t, n)
    decreases n
  {
    if n < 10 {
      assert (Digits(n) + t)[1..] == t;
    } else {
      var d := [Digit(n % 10)];
      assert Digits(n) + t == Digits(n / 10) + (d + t);
      TakeDigitsOfDigits(n / 10, d + t);
      assert (d + t)[1..] == t;
    }
  }

  lemma ScanUnsigned(n: nat, t: string)
    requires t == [] || !IsDigit(t[0])
    ensures var s := Digits(n) + t; IsDigit(s[0]) && SkipSpaces(s) == s && TakeDigits(s, 0) == (n, t)
  {
    TakeDigitsOfDigits(n, t);
    assert Digits(n)[0] in Digits(n);
  }

  /** Printing then scanning gives the number back and stops right after it. */
  lemma ScanPrinted(i: int, t: string)
    requires t == [] || !IsDigit(t[0])
    ensures ScanInt(Print(i) + t) == Some((i, t))
    ensures Atoi(Print(i) + t) == i
  {
    if i < 0 {
      ScanUnsigned(-i, t);
      assert (Print(i) + t)[1..] == Digits(-i) + t;
      assert SkipSpaces(Print(i) + t) == Print(i) + t;
    } else {
      ScanUnsigned(i, t);
    }
  }

  lemma AtoiPrinted(i: int)
    ensures Atoi(Print(i)) == i
  {
    ScanPrinted(i, "");
    assert Print(i) + "" == Print(i);
  }

  lemma {:induction false} FindAfter(s: string, c: char, t: string)
    requires c !in s
    ensures Find(s + [c] + t, c) == |s|
  {
    if s != [] {
      assert (s + [c] + t)[1..] == s[1..] + [c] + t;
      FindAfter(s[1..], c, t);
    }
  }

  /** A prefix without `c` is skipped. */
  lemma {:induction false} FindSkips(s: string, c: char, k: nat)
    requires k <= |s| && c !in s[..k]
    ensures Find(s, c) >= k
    ensures k < |s| ==> (Find(s, c) == k <==> s[k] == c)
  {
    if k > 0 {
      assert s[0] == s[..k][0] && forall x <- s[1..][..k - 1] :: x in s[..k];
      FindSkips(s[1..], c, k - 1);
    }
  }

  lemma {:induction false} TokenEndAfter(t: string, sep: char, sep': char, rest: string)
    requires sep !in t && sep' !in t && (rest == [] || rest[0] == sep || rest[0] == sep')
    ensures TokenEnd(t + rest, sep, sep') == |t|
  {
    if t == [] {
      assert t + rest == rest;
    } else {
      assert (t + rest)[1..] == t[1..] + rest;
      TokenEndAfter(t[1..], sep, sep', rest);
    }
  }

  lemma FirstToken(t: string, sep: char, sep': char, rest: string)
    requires t != [] && sep !in t && sep' !in t && (rest == [] || rest[0] == sep || rest[0] == sep')
    ensures Tokens(t + rest, sep, sep') == [t] + Tokens(rest, sep, sep')
  {
    TokenEndAfter(t, sep, sep', rest);
    assert (t + rest)[..|t|] == t && (t + rest)[|t|..] == rest && (t + rest)[0] == t[0];
  }

  lemma NextToken(sep: char, sep': char, rest: string)
    ensures Tokens([sep] + rest, sep, sep') == Tokens(rest, sep, sep')
    ensures Tokens([sep'] + rest, sep, sep') == Tokens(rest, sep, sep')
  {
    assert ([sep] + rest)[1..] == rest && ([sep'] + rest)[1..] == rest;
  }

  lemma NoNewlineInPrint(i: int)
    ensures ' ' !in Print(i) && '\n' !in Print(i)
  {}

  /** A 16-bit number is printed in at most five digits and read back, with any of the casts the code applies. */
  lemma SmallNumber(n: int)
    requires 0 <= n < 0x1_0000
    ensures 0 < |Print(n)| <= 5 && forall c <- Print(n) :: IsDigit(c)
    ensures Atoi(Print(n)) == Atoi(Print(n)) % 0x1_0000 == Atoi(Print(n)) % 0x1_0000_0000 == n
  {
    assert Pow10(5) == 100_000;
    DigitsLength(n, 5);
    AtoiPrinted(n);
  }

  // ---- Lengths ----

  function Pow10(k: nat): nat {
    if k == 0 then 1 else 10 * Pow10(k - 1)
  }

  lemma {:induction false} DigitsLength(n: nat, k: nat)
    requires k > 0 && n < Pow10(k)
    ensures |Digits(n)| <= k
    decreases k
  {
    if n >= 10 {
      assert Pow10(1) == 10;
      DigitsLength(n / 10, k - 1);
    }
  }

  lemma PrintLength(i: int32)
    ensures |Print(i as int)| <= 11
  {
    assert Pow10(10) == 10_000_000_000;
    if i < 0 {
      DigitsLength(-(i as int), 10);
    } else {
      DigitsLength(i as int, 10);
    }
  }
}
