/**
 * The string operations the AMI code takes from the Go library, on byte strings whose
 * letters are ASCII: case folding, cutting at a separator, trimming, decimal numbers.
 */
module Text {

  datatype Option<+T> = None | Some(value: T)

  const UINT64_LIMIT: nat := 0x1_0000_0000_0000_0000

  // ---------------------------------------------------------------- case folding

  function LowerChar(c: char): char {
    if 'A' <= c <= 'Z' then (c as int + 32) as char else c
  }

  function Lower(s: string): (r: string)
    ensures |r| == |s|
  {
    seq(|s|, i requires 0 <= i < |s| => LowerChar(s[i]))
  }

  predicate EqualFold(a: string, b: string) {
    Lower(a) == Lower(b)
  }

  lemma LowerIdempotent(s: string)
    ensures Lower(Lower(s)) == Lower(s)
  {
  }

  /** Folding lowers the letters 'A' to 'Z' and touches nothing else. */
  lemma LowerExactly(s: string)
    ensures forall i :: 0 <= i < |s| ==>
              if 'A' <= s[i] <= 'Z' then Lower(s)[i] as int == s[i] as int + 32 else Lower(s)[i] == s[i]
    ensures forall i :: 0 <= i < |s| ==> !('A' <= Lower(s)[i] <= 'Z')
  {
  }

  /** Strings are equal up to case exactly when each character is the other's, or the other case of its letter. */
  lemma EqualFoldExactly(a: string, b: string)
    ensures EqualFold(a, b) <==>
            |a| == |b| && forall i :: 0 <= i < |a| ==>
              || a[i] == b[i]
              || ('A' <= a[i] <= 'Z' && b[i] as int == a[i] as int + 32)
              || ('A' <= b[i] <= 'Z' && a[i] as int == b[i] as int + 32)
  {
    LowerExactly(a);
    LowerExactly(b);
    if |a| == |b| && forall i :: 0 <= i < |a| ==> Lower(a)[i] == Lower(b)[i] {
      assert Lower(a) == Lower(b);
    }
  }

  lemma LowerFixed(s: string)
    requires forall i :: 0 <= i < |s| ==> !('A' <= s[i] <= 'Z')
    ensures Lower(s) == s
  {
  }

  /** Comparing a lowered string with a literal without capitals is comparing it up to case. */
  lemma LowerIs(s: string, literal: string)
    requires forall i :: 0 <= i < |literal| ==> !('A' <= literal[i] <= 'Z')
    ensures Lower(s) == literal <==> EqualFold(s, literal)
  {
    LowerFixed(literal);
  }

  // ---------------------------------------------------------------- searching and trimming

  /** The index of the first `c` in `s`, or the length of `s` when there is none. */
  function IndexOf(s: string, c: char): (r: nat)
    ensures r <= |s|
  {
    if s == "" || s[0] == c then 0 else 1 + IndexOf(s[1..], c)
  }

  lemma {:induction false} IndexOfSpec(s: string, c: char)
    ensures forall j :: 0 <= j < IndexOf(s, c) ==> s[j] != c
    ensures IndexOf(s, c) < |s| ==> s[IndexOf(s, c)] == c
  {
    if s != "" && s[0] != c {
      IndexOfSpec(s[1..], c);
      assert forall j :: 1 <= j < |s| ==> s[j] == s[1..][j - 1];
    }
  }

  lemma IndexOfIs(s: string, c: char, i: nat)
    requires i <= |s| && forall j :: 0 <= j < i ==> s[j] != c
    requires i < |s| ==> s[i] == c
    ensures IndexOf(s, c) == i
  {
    IndexOfSpec(s, c);
  }

  predicate IsNewlineChar(c: char) { c == '\r' || c == '\n' }

  /** Drops the carriage returns and newlines at the end of `s`. */
  function TrimRight(s: string): string {
    if s != "" && IsNewlineChar(s[|s| - 1]) then TrimRight(s[..|s| - 1]) else s
  }

  /** What is left is the longest prefix that does not end in a newline character. */
  lemma {:induction false} TrimRightSpec(s: string)
    ensures TrimRight(s) <= s
    ensures forall i :: |TrimRight(s)| <= i < |s| ==> IsNewlineChar(s[i])
    ensures TrimRight(s) != "" ==> !IsNewlineChar(TrimRight(s)[|TrimRight(s)| - 1])
  {
    if s != "" && IsNewlineChar(s[|s| - 1]) {
      TrimRightSpec(s[..|s| - 1]);
    }
  }

  lemma TrimRightIs(s: string, r: string)
    requires r <= s
    requires forall i :: |r| <= i < |s| ==> IsNewlineChar(s[i])
    requires r != "" ==> !IsNewlineChar(r[|r| - 1])
    ensures TrimRight(s) == r
  {
    TrimRightSpec(s);
  }

  /** Drops the spaces at the start of `s`. */
  function TrimLeft(s: string): string {
    if s != "" && s[0] == ' ' then TrimLeft(s[1..]) else s
  }

  /** What is left is the longest suffix that does not start with a space. */
  lemma {:induction false} TrimLeftSpec(s: string)
    ensures |TrimLeft(s)| <= |s| && TrimLeft(s) == s[|s| - |TrimLeft(s)|..]
    ensures forall i :: 0 <= i < |s| - |TrimLeft(s)| ==> s[i] == ' '
    ensures TrimLeft(s) != "" ==> TrimLeft(s)[0] != ' '
  {
    if s != "" && s[0] == ' ' {
      var t := s[1..];
      TrimLeftSpec(t);
      var n := |t| - |TrimLeft(t)|;
      assert t[n..] == s[n + 1..];
      assert forall i :: 1 <= i < |s| ==> s[i] == t[i - 1];
    }
  }

  predicate IsSpace(c: char) {
    c in {' ', '\t', '\n', '\r', '\U{0B}', '\U{0C}'}
  }

  /** Drops white space at both ends. */
  function TrimSpace(s: string): string {
    if s != "" && IsSpace(s[0]) then TrimSpace(s[1..])
    else if s != "" && IsSpace(s[|s| - 1]) then TrimSpace(s[..|s| - 1])
    else s
  }

  /** What is left is the stretch between the outermost characters that are not white space. */
  lemma {:induction false} TrimSpaceSpec(s: string) returns (i: nat, j: nat)
    ensures i <= j <= |s| && TrimSpace(s) == s[i..j]
    ensures forall k :: 0 <= k < i || j <= k < |s| ==> s[k] in {' ', '\t', '\n', '\r', '\U{0B}', '\U{0C}'}
    ensures i < j ==> s[i] !in {' ', '\t', '\n', '\r', '\U{0B}', '\U{0C}'}
    ensures i < j ==> s[j - 1] !in {' ', '\t', '\n', '\r', '\U{0B}', '\U{0C}'}
  {
    if s != "" && IsSpace(s[0]) {
      i, j := TrimSpaceSpec(s[1..]);
      assert s[1..][i..j] == s[i + 1..j + 1];
      assert forall k :: 1 <= k < |s| ==> s[k] == s[1..][k - 1];
      i, j := i + 1, j + 1;
    } else if s != "" && IsSpace(s[|s| - 1]) {
      i, j := TrimSpaceSpec(s[..|s| - 1]);
      assert s[..|s| - 1][i..j] == s[i..j];
    } else {
      i, j := 0, |s|;
    }
  }

  /** The first string that is not empty, or "". */
  function FirstNonEmpty(vals: seq<string>): string {
    if vals == [] then "" else if vals[0] != "" then vals[0] else FirstNonEmpty(vals[1..])
  }

  lemma {:induction false} FirstNonEmptySpec(vals: seq<string>, k: nat)
    requires k <= |vals| && forall j :: 0 <= j < k ==> vals[j] == ""
    requires k < |vals| ==> vals[k] != ""
    ensures FirstNonEmpty(vals) == if k < |vals| then vals[k] else ""
  {
    if k > 0 {
      FirstNonEmptySpec(vals[1..], k - 1);
    }
  }

  // ---------------------------------------------------------------- concatenation

  lemma Assoc<T>(a: seq<T>, b: seq<T>, c: seq<T>)
    ensures (a + b) + c == a + (b + c)
  {
  }

  lemma NotInConcat<T>(a: seq<T>, b: seq<T>, x: T)
    requires x !in a && x !in b
    ensures x !in a + b
  {
  }

  // ---------------------------------------------------------------- decimal numbers

  predicate IsDigit(c: char) { '0' <= c <= '9' }

  function DigitChar(d: nat): char
    requires d < 10
  {
    (d + '0' as int) as char
  }

  function DigitValue(c: char): nat
    requires IsDigit(c)
  {
    c as int - '0' as int
  }

  predicate AllDigits(s: string) {
    forall i :: 0 <= i < |s| ==> IsDigit(s[i])
  }

  function Format(n: nat): (s: string)
    ensures s != "" && AllDigits(s)
  {
    if n < 10 then [DigitChar(n)] else Format(n / 10) + [DigitChar(n % 10)]
  }

  function DecimalValue(s: string): nat
    requires AllDigits(s)
  {
    if s == "" then 0 else 10 * DecimalValue(s[..|s| - 1]) + DigitValue(s[|s| - 1])
  }

  /** An unsigned 64-bit number in base ten: digits only, at least one, in range. */
  function ParseUint(s: string): Option<nat> {
    if s != "" && AllDigits(s) && DecimalValue(s) < UINT64_LIMIT then Some(DecimalValue(s)) else None
  }

  lemma {:induction false} FormatValue(n: nat)
    ensures DecimalValue(Format(n)) == n
  {
    if n >= 10 {
      FormatValue(n / 10);
      var s := Format(n);
      assert s[..|s| - 1] == Format(n / 10);
    } else {
      assert Format(n)[..0] == "";
    }
  }

  /** Every 64-bit number survives being printed and parsed, so no two print alike. */
  lemma ParseFormat(n: nat)
    requires n < UINT64_LIMIT
    ensures ParseUint(Format(n)) == Some(n)
  {
    FormatValue(n);
  }

  lemma FormatInjective(m: nat, n: nat)
    requires Format(m) == Format(n)
    ensures m == n
  {
    FormatValue(m);
    FormatValue(n);
  }

  /** Digits are the usual ones, the most significant first. */
  lemma FormatExactly(n: nat)
    ensures n < 10 ==> Format(n) == ["0123456789"[n]]
    ensures n >= 10 ==> Format(n) == Format(n / 10) + ["0123456789"[n % 10]]
  {
  }

  lemma DigitIs(d: nat)
    requires d < 10
    ensures IsDigit("0123456789"[d]) && DigitValue("0123456789"[d]) == d
  {
  }

  lemma DigitExactly(c: char)
    ensures c in "0123456789" <==> IsDigit(c)
  {
    var ds := "0123456789";
    if IsDigit(c) {
      assert ds[DigitValue(c)] == c;
    }
  }

  /** Reading a number: one digit, then digit by digit, below 2^64 only, and digits only. */
  lemma ParseUintExactly(s: string, d: nat)
    requires d < 10
    ensures ParseUint("") == None && ParseUint(["0123456789"[d]]) == Some(d)
    ensures ParseUint(s).Some? ==>
              ParseUint(s + ["0123456789"[d]]) ==
              if 10 * ParseUint(s).value + d < 18446744073709551616 then Some(10 * ParseUint(s).value + d) else None
    ensures ParseUint(s).Some? ==> s != "" && forall c :: c in s ==> c in "0123456789"
  {
    var one, t := ["0123456789"[d]], s + ["0123456789"[d]];
    DigitIs(d);
    assert AllDigits(one) && one[..0] == "" && one[|one| - 1] == "0123456789"[d];
    assert DecimalValue(one) == d;
    assert t[..|t| - 1] == s;
    forall c: char ensures c in "0123456789" <==> IsDigit(c) {
      DigitExactly(c);
    }
  }
}
