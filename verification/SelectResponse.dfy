/**
 How rust-imap-worker/src/imap_client.rs reads UIDVALIDITY and UIDNEXT out of the
 lines of a SELECT response.
 */
module SelectResponse {
  import opened Common
  import opened Text

  /** The number before the first blank. */
  function NumberBefore(after: string): Option<nat> {
    match Find(after, " ")
    case None => None
    case Some(blank) => ParseU32(Trim(after[..blank]))
  }

  /** The number after the key in one line, if the source can read it there. */
  function NumberIn(line: string, key: string): Option<nat> {
    var lower := Lower(Trim(line));
    match Find(lower, key)
    case None => None
    case Some(at) => NumberBefore(Trim(lower[at + |key|..]))
  }

  /** The first line that yields a number decides; zero when there is none. */
  function FirstNumber(lines: seq<string>, key: string): nat {
    if lines == [] then 0
    else if NumberIn(lines[0], key).Some? then NumberIn(lines[0], key).value
    else FirstNumber(lines[1..], key)
  }

  /** What the number of a response means: the first readable one, or zero. */
  lemma {:induction false} FirstNumberIs(lines: seq<string>, key: string)
    ensures (FirstNumber(lines, key) == 0 && forall i :: 0 <= i < |lines| ==> NumberIn(lines[i], key) == None)
            || exists i :: 0 <= i < |lines| && NumberIn(lines[i], key) == Some(FirstNumber(lines, key))
                           && forall j :: 0 <= j < i ==> NumberIn(lines[j], key) == None
  {
    hide NumberIn;
    if lines == [] {
    } else if NumberIn(lines[0], key).Some? {
    } else {
      FirstNumberIs(lines[1..], key);
      if i :| 0 <= i < |lines| - 1 && NumberIn(lines[1..][i], key) == Some(FirstNumber(lines, key))
              && forall j :: 0 <= j < i ==> NumberIn(lines[1..][j], key) == None {
        forall j | 0 <= j < i + 1 ensures NumberIn(lines[j], key) == None {
          assert j > 0 ==> lines[j] == lines[1..][j - 1];
        }
        assert NumberIn(lines[i + 1], key) == Some(FirstNumber(lines, key));
      } else {
        assert forall i :: 1 <= i < |lines| ==> lines[i] == lines[1..][i - 1];
      }
    }
  }

  method GetNumber(lines: seq<string>, key: string) returns (n: nat)
    ensures n == FirstNumber(lines, key)
    ensures (n == 0 && forall i :: 0 <= i < |lines| ==> NumberIn(lines[i], key) == None)
            || exists i :: 0 <= i < |lines| && NumberIn(lines[i], key) == Some(n)
                           && forall j :: 0 <= j < i ==> NumberIn(lines[j], key) == None
  {
    hide NumberIn;
    FirstNumberIs(lines, key);
    for i := 0 to |lines|
      invariant FirstNumber(lines, key) == FirstNumber(lines[i..], key)
    {
      var found := NumberIn(lines[i], key);
      if found.Some? {
        return found.value;
      }
    }
    n := 0;
  }

  // ---- when a number is read ----------------------------------------------------

  /** A blank comes before anything visible. */
  predicate BlankFollows(tail: string) {
    tail != "" && (tail[0] == ' ' || (IsSpace(tail[0]) && BlankFollows(tail[1..])))
  }

  /** The part of the tail before its first blank is all white space when a blank
      comes before anything visible. */
  lemma {:induction false} BlankEnds(gap: string, rest: string)
    requires ' ' !in gap
    ensures BlankFollows(gap + " " + rest) <==> TrimEnd(gap) == ""
  {
    var tail := gap + " " + rest;
    VisibleStays(gap);
    if gap == "" {
    } else {
      assert tail[1..] == gap[1..] + " " + rest;
      BlankEnds(gap[1..], rest);
      VisibleStays(gap[1..]);
      assert forall i :: 0 <= i < |gap[1..]| ==> gap[1..][i] == gap[i + 1];
    }
  }

  lemma {:induction false} NoBlankFollows(tail: string)
    requires ' ' !in tail
    ensures !BlankFollows(tail)
  {
    if tail == "" {
    } else {
      NoBlankFollows(tail[1..]);
    }
  }

  lemma {:induction false} FirstBlank(s: string) returns (gap: string, rest: string)
    requires ' ' in s
    ensures s == gap + " " + rest && ' ' !in gap
  {
    if s[0] == ' ' {
      gap, rest := "", s[1..];
    } else {
      gap, rest := FirstBlank(s[1..]);
      gap := [s[0]] + gap;
    }
  }

  lemma ParseAfter(digits: string, more: string)
    requires digits != "" && Digits(digits) && (more == "" || !IsDigit(more[0]))
    ensures ParseU32(digits + more) == if more == "" && Number(digits) <= MAX_U32 then Some(Number(digits)) else None
  {
    assert IsDigit(digits[0]);
    if more == "" {
      assert digits + more == digits;
    } else {
      assert (digits + more)[|digits|] == more[0];
    }
  }

  lemma BeforeBlank(word: string, rest: string)
    requires ' ' !in word
    ensures NumberBefore(word + " " + rest) == ParseU32(Trim(word))
  {
    FindAfter(word, " ", rest);
    hide Find, ParseU32, Trim;
    assert (word + " " + rest)[..|word|] == word;
  }

  lemma DigitsAreVisible(digits: string)
    requires digits != "" && Digits(digits)
    ensures ' ' !in digits && !IsSpace(digits[0]) && !IsSpace(digits[|digits| - 1])
  {
    assert IsDigit(digits[0]) && IsDigit(digits[|digits| - 1]);
    assert forall i :: 0 <= i < |digits| ==> IsDigit(digits[i]);
  }

  lemma SpacedIsRead(digits: string, gap: string, rest: string)
    requires digits != "" && Digits(digits) && ' ' !in gap && (gap == "" || !IsDigit(gap[0]))
    ensures NumberBefore(digits + (gap + " " + rest))
            == if TrimEnd(gap) == "" && Number(digits) <= MAX_U32 then Some(Number(digits)) else None
  {
    assert TrimEnd("") == "";
    hide NumberBefore, ParseU32, Number, Trim, TrimEnd, IsDigit, IsSpace, Digits;
    DigitsAreVisible(digits);
    assert digits + (gap + " " + rest) == (digits + gap) + " " + rest;
    BeforeBlank(digits + gap, rest);
    TrimAfter(digits, gap);
    ParseAfter(digits, TrimEnd(gap));
  }

  lemma DigitsAreReadIff(digits: string, tail: string)
    requires digits != "" && Digits(digits) && (tail == "" || !IsDigit(tail[0]))
    ensures NumberBefore(digits + tail)
            == if BlankFollows(tail) && Number(digits) <= MAX_U32 then Some(Number(digits)) else None
  {
    hide Number, NumberBefore, ParseU32, Trim, TrimEnd, Find, BlankFollows, Digits;
    if ' ' in tail {
      var gap, rest := FirstBlank(tail);
      assert gap != "" ==> tail[0] == gap[0];
      SpacedIsRead(digits, gap, rest);
      BlankEnds(gap, rest);
    } else {
      NoBlankFollows(tail);
      DigitsAreVisible(digits);
      NoneBefore(digits + tail);
    }
  }

  lemma NoneBefore(after: string)
    requires ' ' !in after
    ensures NumberBefore(after) == None
  {
    FindNone(after, " ");
  }

  /** Where digits follow the key, the line yields their number exactly when a blank
      comes next, or other white space up to a blank, and it fits in 32 bits. */
  lemma NumberIsReadIff(line: string, key: string, at: nat, digits: string, tail: string)
    requires Find(Lower(Trim(line)), key) == Some(at)
    requires Trim(Lower(Trim(line))[at + |key|..]) == digits + tail
    requires digits != "" && Digits(digits) && (tail == "" || !IsDigit(tail[0]))
    ensures NumberIn(line, key)
            == if BlankFollows(tail) && Number(digits) <= MAX_U32 then Some(Number(digits)) else None
  {
    DigitsAreReadIff(digits, tail);
  }

  /** In the lines servers write, `c` is what follows the digits: they are read
      exactly when that is a blank.  In particular the usual form, with a closing
      bracket right after them, yields nothing. */
  lemma ServerLineIsReadIff(line: string, key: string, digits: string, c: char, rest: string)
    requires key != "" && key[0] == 'u'
    requires digits != "" && Digits(digits) && Number(digits) <= MAX_U32
    requires !IsDigit(c) && (IsSpace(c) ==> c == ' ')
    requires Lower(Trim(line)) == "* ok [" + key + " " + digits + [c] + rest
    ensures NumberIn(line, key) == if c == ' ' then Some(Number(digits)) else None
  {
    hide Find, Trim, Lower, ParseU32, Number, NumberIn, Digits, IsSpace, IsDigit, BlankFollows;
    var pre, tail := "* ok [", [c] + rest;
    DigitsAreVisible(digits);
    EndIsVisible(line);
    BlankFirst(c, rest);
    AfterKey(pre, key, digits + tail);
    assert pre + key + " " + (digits + tail) == "* ok [" + key + " " + digits + [c] + rest;
    NumberIsReadIff(line, key, |pre|, digits, tail);
  }

  lemma EndIsVisible(line: string)
    ensures var lower := Lower(Trim(line)); lower != "" ==> !IsSpace(lower[|lower| - 1])
  {
    TrimIsPart(line);
    hide Trim;
  }

  lemma AfterKey(pre: string, key: string, after: string)
    requires key != "" && key[0] !in pre
    requires after != "" && !IsSpace(after[0]) && !IsSpace(after[|after| - 1])
    ensures Find(pre + key + " " + after, key) == Some(|pre|)
    ensures Trim((pre + key + " " + after)[|pre| + |key|..]) == after
  {
    hide Find, Trim, IsSpace;
    Behind(pre + key, " ", after);
    FindAfter(pre, key, " " + after);
    TrimSpaced(after);
  }

  lemma Behind(front: string, middle: string, after: string)
    ensures front + middle + after == front + (middle + after)
    ensures (front + middle + after)[|front|..] == middle + after
  {
  }

  lemma BlankFirst(c: char, rest: string)
    requires IsSpace(c) ==> c == ' '
    ensures BlankFollows([c] + rest) <==> c == ' '
  {
  }

  /** So a response whose only line with the key is of that form yields the number
      when a blank follows it, and zero otherwise. */
  lemma ServerResponseReads(lines: seq<string>, key: string, at: nat, digits: string, c: char, rest: string)
    requires key != "" && key[0] == 'u' && at < |lines|
    requires digits != "" && Digits(digits) && Number(digits) <= MAX_U32
    requires !IsDigit(c) && (IsSpace(c) ==> c == ' ')
    requires Lower(Trim(lines[at])) == "* ok [" + key + " " + digits + [c] + rest
    requires forall i :: 0 <= i < |lines| && i != at ==> Find(Lower(Trim(lines[i])), key) == None
    ensures FirstNumber(lines, key) == if c == ' ' then Number(digits) else 0
  {
    ServerLineIsReadIff(lines[at], key, digits, c, rest);
    hide Find, Trim, Lower, ParseU32, Number;
    forall i | 0 <= i < |lines| && i != at ensures NumberIn(lines[i], key) == None {
    }
    hide NumberIn;
    FirstNumberIs(lines, key);
  }
}
