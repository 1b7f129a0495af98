/**
 The string operations that the IMAP code uses, on ASCII text.
 */
module Text {
  import opened Common

  predicate IsSpace(c: char) {
    c == ' ' || c == '\t' || c == '\n' || c == '\r' || c == '\U{000B}' || c == '\U{000C}'
  }

  function Trim(s: string): string {
    if s == "" then ""
    else if IsSpace(s[0]) then Trim(s[1..])
    else if IsSpace(s[|s| - 1]) then Trim(s[..|s| - 1])
    else s
  }

  /** Trimming only takes away, and leaves no blank at either end. */
  lemma {:induction false} TrimIsPart(s: string)
    ensures forall c :: c in Trim(s) ==> c in s
    ensures Trim(s) != "" ==> !IsSpace(Trim(s)[0]) && !IsSpace(Trim(s)[|Trim(s)| - 1])
  {
    if s == "" {
    } else {
      if IsSpace(s[0]) {
        TrimIsPart(s[1..]);
      } else if IsSpace(s[|s| - 1]) {
        TrimIsPart(s[..|s| - 1]);
      }
    }
  }

  predicate IsUpper(c: char) {
    'A' <= c <= 'Z'
  }

  predicate IsLower(c: char) {
    'a' <= c <= 'z'
  }

  function ToLower(c: char): (d: char)
    requires IsUpper(c)
    ensures IsLower(d) && ToUpper(d) == c
  {
    c - 'A' + 'a'
  }

  function ToUpper(c: char): (d: char)
    requires IsLower(c)
    ensures IsUpper(d)
  {
    c - 'a' + 'A'
  }

  function LowerChar(c: char): char {
    if IsUpper(c) then ToLower(c) else c
  }

  function Lower(s: string): string {
    seq(|s|, i requires 0 <= i < |s| => LowerChar(s[i]))
  }

  /** The letters A to Z become small, and nothing else changes. */
  lemma LowerIs(s: string)
    ensures |Lower(s)| == |s|
    ensures forall i :: 0 <= i < |s| && 'A' <= s[i] <= 'Z' ==>
              'a' <= Lower(s)[i] <= 'z' && Lower(s)[i] - 'a' == s[i] - 'A'
    ensures forall i :: 0 <= i < |s| && !('A' <= s[i] <= 'Z') ==> Lower(s)[i] == s[i]
  {
  }

  lemma LowerTwice(s: string)
    ensures Lower(Lower(s)) == Lower(s)
  {
  }

  predicate StartsWith(s: string, pat: string) {
    |pat| <= |s| && s[..|pat|] == pat
  }

  /** Where the text first contains the pattern. */
  function Find(s: string, pat: string): (at: Option<nat>)
    ensures at.Some? ==> at.value + |pat| <= |s|
  {
    if StartsWith(s, pat) then Some(0)
    else if s == "" then None
    else
      match Find(s[1..], pat)
      case Some(i) => Some(i + 1)
      case None => None
  }

  /** Where the text last contains the pattern. */
  function FindLast(s: string, pat: string): (at: Option<nat>)
    ensures at.Some? ==> at.value + |pat| <= |s|
  {
    if s == "" then if pat == "" then Some(0) else None
    else
      match FindLast(s[1..], pat)
      case Some(i) => Some(i + 1)
      case None => if StartsWith(s, pat) then Some(0) else None
  }

  predicate IsDigit(c: char) {
    '0' <= c <= '9'
  }

  predicate Digits(s: string) {
    forall i :: 0 <= i < |s| ==> IsDigit(s[i])
  }

  function Number(digits: string): nat
    requires Digits(digits)
  {
    if digits == "" then 0
    else
      assert IsDigit(digits[|digits| - 1]);
      10 * Number(digits[..|digits| - 1]) + (digits[|digits| - 1] - '0') as nat
  }

  function Digit(n: nat): (c: char)
    requires n < 10
    ensures IsDigit(c) && (c - '0') as nat == n
  {
    n as char + '0'
  }

  function Decimal(n: nat): string {
    if n < 10 then [Digit(n)] else Decimal(n / 10) + [Digit(n % 10)]
  }

  lemma NumberSnoc(digits: string, n: nat)
    requires Digits(digits) && n < 10
    ensures Digits(digits + [Digit(n)]) && Number(digits + [Digit(n)]) == 10 * Number(digits) + n
  {
    assert (digits + [Digit(n)])[..|digits|] == digits;
  }

  /** A number written in decimal is read back. */
  lemma {:induction false} DecimalIsRead(n: nat)
    ensures Decimal(n) != "" && Digits(Decimal(n)) && Number(Decimal(n)) == n
  {
    if n < 10 {
      NumberSnoc("", n);
      assert "" + [Digit(n)] == [Digit(n)];
    } else {
      DecimalIsRead(n / 10);
      NumberSnoc(Decimal(n / 10), n % 10);
      hide Number;
    }
  }

  /** `parse::<u32>()`: an optional plus sign, at least one digit, and in range. */
  function ParseU32(s: string): (n: Option<nat>)
    ensures n.Some? ==> n.value <= MAX_U32
  {
    var digits := if s != "" && s[0] == '+' then s[1..] else s;
    if digits != "" && Digits(digits) && Number(digits) <= MAX_U32 then Some(Number(digits)) else None
  }

  lemma {:induction false} FindAfter(pre: string, key: string, rest: string)
    requires key != "" && key[0] !in pre
    ensures Find(pre + key + rest, key) == Some(|pre|)
  {
    var s := pre + key + rest;
    if pre == "" {
      assert s[..|key|] == key;
    } else {
      assert !StartsWith(s, key) by {
        assert s[0] == pre[0];
      }
      assert s[1..] == pre[1..] + key + rest;
      FindAfter(pre[1..], key, rest);
    }
  }

  lemma PrefixFirst(s: string, key: string)
    requires key != ""
    ensures StartsWith(s, key) ==> s != "" && s[0] == key[0]
  {
    if StartsWith(s, key) {
      assert s[..|key|][0] == s[0];
    }
  }

  /** A text that contains the key is found to contain it. */
  lemma {:induction false} FindSome(pre: string, key: string, rest: string)
    ensures Find(pre + key + rest, key).Some?
  {
    var s := pre + key + rest;
    if pre == "" {
      assert s[..|key|] == key;
    } else {
      assert s[1..] == pre[1..] + key + rest;
      FindSome(pre[1..], key, rest);
    }
  }

  lemma {:induction false} FindNone(s: string, key: string)
    requires key != "" && key[0] !in s
    ensures Find(s, key) == None && FindLast(s, key) == None
  {
    if s == "" {
    } else {
      PrefixFirst(s, key);
      FindNone(s[1..], key);
    }
  }

  lemma TrimDense(s: string)
    requires s == "" || (!IsSpace(s[0]) && !IsSpace(s[|s| - 1]))
    ensures Trim(s) == s
  {
  }

  function TrimEnd(s: string): string {
    if s == "" then "" else if IsSpace(s[|s| - 1]) then TrimEnd(s[..|s| - 1]) else s
  }

  lemma {:induction false} TrimAfter(word: string, tail: string)
    requires word != "" && !IsSpace(word[0]) && !IsSpace(word[|word| - 1])
    ensures Trim(word + tail) == word + TrimEnd(tail)
    ensures TrimEnd(tail) != "" ==> TrimEnd(tail)[0] == tail[0]
  {
    if tail == "" {
      assert word + tail == word;
      TrimDense(word);
    } else if IsSpace(tail[|tail| - 1]) {
      TrimAfter(word, tail[..|tail| - 1]);
      assert (word + tail)[..|word + tail| - 1] == word + tail[..|tail| - 1];
    } else {
      TrimDense(word + tail);
    }
  }

  lemma {:induction false} VisibleStays(s: string)
    ensures TrimEnd(s) == "" <==> forall i :: 0 <= i < |s| ==> IsSpace(s[i])
  {
    if s == "" {
    } else {
      VisibleStays(s[..|s| - 1]);
    }
  }

  lemma TrimSpaced(s: string)
    requires s != "" && !IsSpace(s[0]) && !IsSpace(s[|s| - 1])
    ensures Trim(" " + s) == s
  {
    assert (" " + s)[1..] == s;
    TrimDense(s);
  }

  lemma NumbersParse(digits: string)
    requires digits != "" && Digits(digits) && Number(digits) <= MAX_U32
    ensures Trim(digits) == digits && ParseU32(digits) == Some(Number(digits))
  {
    assert IsDigit(digits[0]) && IsDigit(digits[|digits| - 1]);
    TrimDense(digits);
  }
}
