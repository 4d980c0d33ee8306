// The C library string conventions the projects lean on: character classes
// of <ctype.h> in the "C" locale, `atoi`, and the decimal rendering that
// `printf("%d")` produces for a non-negative value.  Strings are sequences
// of characters; a C string ends at its first NUL.

module CStrings {

  /** isspace in the "C" locale. */
  predicate IsSpace(c: char)
  {
    c == ' ' || c == '\t' || c == '\n' || c == '\U{0B}' || c == '\U{0C}' || c == '\r'
  }

  predicate IsDigit(c: char)
  {
    '0' <= c <= '9'
  }

  predicate IsUpper(c: char)
  {
    'A' <= c <= 'Z'
  }

  predicate IsLower(c: char)
  {
    'a' <= c <= 'z'
  }

  /** toupper in the "C" locale: lower-case ASCII letters move to upper
      case, every other character is kept. */
  function ToUpper(c: char): (r: char)
    ensures !IsLower(r)
    ensures r == c <==> !IsLower(c)
    ensures IsLower(c) ==> IsUpper(r) && r as int - 'A' as int == c as int - 'a' as int
  {
    if IsLower(c) then (c as int - 32) as char else c
  }

  /** The C string held in a buffer: everything before the first NUL. */
  function CStr(buf: string): (r: string)
    ensures |r| <= |buf| && r == buf[..|r|]
    ensures '\0' !in r
    ensures |r| < |buf| ==> buf[|r|] == '\0'
  {
    if |buf| == 0 || buf[0] == '\0' then [] else [buf[0]] + CStr(buf[1..])
  }

  /** A buffer whose first NUL is at `n` holds the C string `buf[..n]`. */
  lemma {:induction false} CStrAt(buf: string, n: nat)
    requires n < |buf| && buf[n] == '\0'
    requires forall k :: 0 <= k < n ==> buf[k] != '\0'
    ensures CStr(buf) == buf[..n]
  {
    if n > 0 {
      CStrAt(buf[1..], n - 1);
      assert buf[..n] == [buf[0]] + buf[1..][..n - 1];
    }
  }

  /** The character at `i`, reading a NUL past the end, as the code that
      scans a NUL-terminated buffer sees it. */
  function At(buf: string, i: nat): char
  {
    if i < |buf| then buf[i] else '\0'
  }

  /** Length of the run of decimal digits at the front of `s`. */
  function DigitRun(s: string): (n: nat)
    ensures n <= |s|
    ensures n < |s| ==> !IsDigit(s[n])
  {
    if |s| == 0 || !IsDigit(s[0]) then 0 else 1 + DigitRun(s[1..])
  }

  /** Every character of the digit run is a digit. */
  lemma {:induction false} DigitRunDigits(s: string)
    ensures forall k :: 0 <= k < DigitRun(s) ==> IsDigit(s[k])
  {
    if |s| > 0 && IsDigit(s[0]) {
      DigitRunDigits(s[1..]);
    }
  }

  /** The value of a decimal digit character. */
  function DigitValue(c: char): int
  {
    c as int - '0' as int
  }

  /** The value of a string of decimal digits, most significant first. */
  function DigitsValue(ds: string): int
  {
    if |ds| == 0 then 0 else 10 * DigitsValue(ds[..|ds| - 1]) + DigitValue(ds[|ds| - 1])
  }

  /** A string of decimal digits has a non-negative value. */
  lemma {:induction false} DigitsValueNonNegative(ds: string)
    requires forall k :: 0 <= k < |ds| ==> IsDigit(ds[k])
    ensures DigitsValue(ds) >= 0
  {
    if |ds| > 0 {
      DigitsValueNonNegative(ds[..|ds| - 1]);
    }
  }

  /** atoi: white space is skipped, then an optional sign, then the
      decimal digits that follow are read; no digits give 0.  Overflow of
      `int` is not modelled. */
  function Atoi(s: string): int
  {
    AtoiFrom(s, 0)
  }

  /** The scan of atoi from index `i`, still in the leading white space. */
  function AtoiFrom(s: string, i: nat): int
    decreases |s| - i
  {
    if i < |s| && IsSpace(s[i]) then AtoiFrom(s, i + 1)
    else if i < |s| && s[i] == '-' then -DigitsFrom(s, i + 1, 0)
    else if i < |s| && s[i] == '+' then DigitsFrom(s, i + 1, 0)
    else DigitsFrom(s, i, 0)
  }

  /** The digit loop of atoi: `acc` times ten plus each further digit, up
      to the first character that is not a digit. */
  function DigitsFrom(s: string, i: nat, acc: int): int
    decreases |s| - i
  {
    if i < |s| && IsDigit(s[i]) then DigitsFrom(s, i + 1, 10 * acc + DigitValue(s[i])) else acc
  }

  /** Reading a run of `n` digits that starts at `i`, having read the digits
      from `start` to `i` already, gives the value of all digits from
      `start` on. */
  lemma {:induction false} DigitsFromRun(s: string, start: nat, i: nat, n: nat)
    requires start <= i && i + n <= |s|
    requires forall k :: i <= k < i + n ==> IsDigit(s[k])
    requires i + n == |s| || !IsDigit(s[i + n])
    ensures DigitsFrom(s, i, DigitsValue(s[start..i])) == DigitsValue(s[start..i + n])
    decreases n
  {
    if n > 0 {
      assert s[start..i + 1][..i - start] == s[start..i];
      DigitsFromRun(s, start, i + 1, n - 1);
    }
  }

  /** The decimal digit for `d < 10`. */
  function DigitChar(d: nat): (c: char)
    requires d < 10
    ensures IsDigit(c) && DigitValue(c) == d as int
  {
    ('0' as int + d) as char
  }

  /** The decimal rendering of a non-negative number, as `%d` prints it. */
  function DecimalString(n: nat): (s: string)
    ensures |s| > 0
    ensures forall k :: 0 <= k < |s| ==> IsDigit(s[k])
  {
    if n < 10 then [DigitChar(n)] else DecimalString(n / 10) + [DigitChar(n % 10)]
  }

  /** Reading back the decimal rendering of `n` gives `n`. */
  lemma {:induction false} DecimalStringValue(n: nat)
    ensures DigitsValue(DecimalString(n)) == n
  {
    if n >= 10 {
      var s := DecimalString(n);
      assert s[..|s| - 1] == DecimalString(n / 10);
      DecimalStringValue(n / 10);
    }
  }

  /** The digit run of a digit string followed by a non-digit (or nothing)
      is that string. */
  lemma {:induction false} DigitRunOfDigits(ds: string, post: string)
    requires forall k :: 0 <= k < |ds| ==> IsDigit(ds[k])
    requires |post| == 0 || !IsDigit(post[0])
    ensures DigitRun(ds + post) == |ds|
  {
    if |ds| > 0 {
      assert (ds + post)[1..] == ds[1..] + post;
      DigitRunOfDigits(ds[1..], post);
    }
  }

  /** atoi reads back what `%d` wrote, whatever non-digit text follows. */
  lemma AtoiDecimal(n: nat, post: string)
    requires |post| == 0 || !IsDigit(post[0])
    ensures Atoi(DecimalString(n) + post) == n
  {
    AtoiDigits(DecimalString(n), post);
    DecimalStringValue(n);
  }

  /** atoi of a non-empty digit string followed by a non-digit is the value
      of the digits. */
  lemma AtoiDigits(ds: string, post: string)
    requires |ds| > 0 && forall k :: 0 <= k < |ds| ==> IsDigit(ds[k])
    requires |post| == 0 || !IsDigit(post[0])
    ensures Atoi(ds + post) == DigitsValue(ds)
  {
    var s := ds + post;
    assert s[0] == ds[0];
    assert s[..|ds|] == ds && s[0..0] == [];
    DigitsFromRun(s, 0, 0, |ds|);
  }

  /** atoi of a non-empty string of digits is their value. */
  lemma AtoiOfDigits(ds: string)
    requires |ds| > 0 && forall k :: 0 <= k < |ds| ==> IsDigit(ds[k])
    ensures Atoi(ds) == DigitsValue(ds)
  {
    AtoiDigits(ds, []);
    assert ds + [] == ds;
  }

  /** atoi of a string of capital letters is 0: there is no digit to read. */
  lemma AtoiOfLetters(s: string)
    requires forall k :: 0 <= k < |s| ==> IsUpper(s[k])
    ensures Atoi(s) == 0
  {
  }

  /** A one-character string is read by atoi as a section number from 1 to
      9 exactly when the character is one of the digits '1' to '9'. */
  lemma AtoiSingleChar(c: char)
    ensures 1 <= Atoi([c]) <= 9 <==> '1' <= c <= '9'
    ensures '1' <= c <= '9' ==> Atoi([c]) == DigitValue(c)
  {
    if IsDigit(c) {
      AtoiOneDigit(c);
    } else {
      AtoiOneNonDigit(c);
    }
    DigitRangeIff(c, Atoi([c]));
  }

  /** atoi of a one-digit string is the digit's value. */
  lemma AtoiOneDigit(c: char)
    requires IsDigit(c)
    ensures Atoi([c]) == DigitValue(c)
  {
    assert DigitsValue([c]) == DigitValue(c) by { assert [c][..0] == []; }
    AtoiOfDigits([c]);
  }

  /** atoi of a one-character string that is not a digit is 0. */
  lemma AtoiOneNonDigit(c: char)
    requires !IsDigit(c)
    ensures Atoi([c]) == 0
  {
    if IsSpace(c) {
      assert AtoiFrom([c], 1) == 0;
    }
  }

  /** A value read from one character lies in 1..9 exactly for '1'..'9'. */
  lemma DigitRangeIff(c: char, a: int)
    requires IsDigit(c) ==> a == DigitValue(c)
    requires !IsDigit(c) ==> a == 0
    ensures 1 <= a <= 9 <==> '1' <= c <= '9'
  {
  }

  // ---------------------------------------------------------------------
  // Tokens, as strtok_r produces them: maximal runs of non-delimiters.
  // ---------------------------------------------------------------------

  /** Length of the run of non-delimiter characters at the front of `s`. */
  function TokenLen(s: string, d: char): (n: nat)
    ensures n <= |s|
    ensures n < |s| ==> s[n] == d
    ensures |s| > 0 && s[0] != d ==> n > 0
    ensures forall k :: 0 <= k < n ==> s[k] != d
  {
    if |s| == 0 || s[0] == d then 0 else 1 + TokenLen(s[1..], d)
  }

  /** The tokens strtok_r returns for `s` and delimiter `d`, in order. */
  function Tokens(s: string, d: char): seq<string>
    decreases |s|
  {
    if |s| == 0 then []
    else if s[0] == d then Tokens(s[1..], d)
    else
      var n := TokenLen(s, d);
      [s[..n]] + Tokens(s[n..], d)
  }

  predicate IsToken(t: string, d: char)
  {
    |t| > 0 && d !in t
  }

  /** Every token is non-empty and free of the delimiter. */
  lemma {:induction false} TokensAreTokens(s: string, d: char)
    ensures forall k :: 0 <= k < |Tokens(s, d)| ==> IsToken(Tokens(s, d)[k], d)
    decreases |s|
  {
    if |s| > 0 {
      if s[0] == d {
        TokensAreTokens(s[1..], d);
      } else {
        var n := TokenLen(s, d);
        TokensAreTokens(s[n..], d);
        assert IsToken(s[..n], d);
      }
    }
  }

  /** A run of exactly `n` non-delimiters followed by a delimiter or the end. */
  lemma {:induction false} TokenLenExact(s: string, d: char, n: nat)
    requires n <= |s|
    requires forall k :: 0 <= k < n ==> s[k] != d
    requires n == |s| || s[n] == d
    ensures TokenLen(s, d) == n
    decreases n
  {
    if n > 0 {
      TokenLenExact(s[1..], d, n - 1);
    }
  }

  /** A token alone is its own only token. */
  lemma {:induction false} TokensOfToken(t: string, d: char)
    requires IsToken(t, d)
    ensures Tokens(t, d) == [t]
  {
    TokenLenExact(t, d, |t|);
    assert t[..|t|] == t;
    assert t[|t|..] == [];
  }

  /** A delimiter separates: the tokens of `a + [d] + b` are those of `a`, then those of `b`. */
  lemma {:induction false} TokensSplit(a: string, b: string, d: char)
    ensures Tokens(a + [d] + b, d) == Tokens(a, d) + Tokens(b, d)
    decreases |a|
  {
    var s := a + [d] + b;
    if |a| == 0 {
      assert s[1..] == b;
    } else if a[0] == d {
      assert s[1..] == a[1..] + [d] + b;
      TokensSplit(a[1..], b, d);
    } else {
      var n := TokenLen(a, d);
      TokenLenExact(s, d, n);
      assert s[..n] == a[..n];
      assert s[n..] == a[n..] + [d] + b;
      TokensSplit(a[n..], b, d);
    }
  }

  /** Joining tokens with single delimiters. */
  function Join(ts: seq<string>, d: char): string
  {
    if |ts| == 0 then [] else if |ts| == 1 then ts[0] else ts[0] + [d] + Join(ts[1..], d)
  }

  /** Tokenising undoes joining. */
  lemma {:induction false} TokensOfJoin(ts: seq<string>, d: char)
    requires forall k :: 0 <= k < |ts| ==> IsToken(ts[k], d)
    ensures Tokens(Join(ts, d), d) == ts
  {
    if |ts| == 1 {
      TokensOfToken(ts[0], d);
    } else if |ts| > 1 {
      TokensSplit(ts[0], Join(ts[1..], d), d);
      TokensOfToken(ts[0], d);
      TokensOfJoin(ts[1..], d);
    }
  }

  /** One step of the token loop: a delimiter at `i` is skipped. */
  lemma TokensSkip(s: string, i: nat, d: char)
    requires i < |s| && s[i] == d
    ensures Tokens(s[i..], d) == Tokens(s[i + 1..], d)
  {
    assert s[i..][1..] == s[i + 1..];
  }

  /** One step of the token loop: the run `s[i..j]` is the next token. */
  lemma TokensTake(s: string, i: nat, j: nat, d: char)
    requires i < j <= |s|
    requires forall k :: i <= k < j ==> s[k] != d
    requires j == |s| || s[j] == d
    ensures Tokens(s[i..], d) == [s[i..j]] + Tokens(s[j..], d)
  {
    var u := s[i..];
    TokenLenExact(u, d, j - i);
    assert u[..j - i] == s[i..j];
    assert u[j - i..] == s[j..];
  }

  /** The strtok_r loop: collects the tokens of `s` in order. */
  method SplitTokens(s: string, d: char) returns (toks: seq<string>)
    ensures toks == Tokens(s, d)
  {
    toks := [];
    var i := 0;
    while i < |s|
      invariant i <= |s|
      invariant toks + Tokens(s[i..], d) == Tokens(s, d)
    {
      if s[i] == d {
        TokensSkip(s, i, d);
        i := i + 1;
      } else {
        var j := i + 1;
        while j < |s| && s[j] != d
          invariant i < j <= |s|
          invariant forall k :: i <= k < j ==> s[k] != d
        {
          j := j + 1;
        }
        TokensTake(s, i, j, d);
        toks := toks + [s[i..j]];
        i := j;
      }
    }
    assert s[i..] == [];
  }
}
