/**
 `parse_fetch_response` and `parse_exists_count` of
 rust-imap-worker/src/mailbox_monitor.rs, on the lines of a response.
 */
module FetchParser {
  import opened Common
  import opened Text

  type Headers = map<string, string>
  type Messages = map<nat, Headers>

  /** Where a blank or a closing bracket ends the number. */
  function NumberEnd(s: string): (at: Option<nat>)
    ensures at.Some? ==> at.value < |s|
  {
    if s == "" then None
    else if s[0] == ' ' || s[0] == ')' || s[0] == ']' then Some(0)
    else
      match NumberEnd(s[1..])
      case Some(i) => Some(i + 1)
      case None => None
  }

  /** The UID a line announces, if it announces one. */
  function UidOf(line: string): Option<nat> {
    match Find(line, "UID ")
    case None => None
    case Some(at) =>
      var after := line[at + 4..];
      match NumberEnd(after)
      case None => None
      case Some(end) => ParseU32(Trim(after[..end]))
  }

  predicate EndsBlock(trimmed: string) {
    StartsWith(trimmed, ")") || trimmed == "" || (StartsWith(trimmed, "*") && Find(trimmed, "FETCH").Some?)
  }

  predicate Folded(trimmed: string) {
    (StartsWith(trimmed, " ") || StartsWith(trimmed, "\t")) && trimmed != ""
  }

  datatype Header = Header(key: string, value: string)

  /** The header a line of a block holds, if it holds one. */
  function HeaderOf(line: string): Option<Header> {
    var trimmed := Trim(line);
    if EndsBlock(trimmed) then None
    else
      match Find(trimmed, ":")
      case None => None
      case Some(colon) =>
        if 0 < colon < 50 then Some(Header(Lower(Trim(trimmed[..colon])), Trim(trimmed[colon + 1..]))) else None
  }

  /** Trimmed lines never look folded. */
  lemma NeverFolded(line: string)
    ensures !Folded(Trim(line))
  {
    TrimIsPart(line);
  }

  // ---- lines as servers write them --------------------------------------------

  lemma {:induction false} NumberEndAfter(digits: string, end: char, rest: string)
    requires Digits(digits) && (end == ' ' || end == ')' || end == ']')
    ensures NumberEnd(digits + [end] + rest) == Some(|digits|)
  {
    var s := digits + [end] + rest;
    if digits == "" {
    } else {
      assert IsDigit(digits[0]);
      assert forall i :: 0 <= i < |digits[1..]| ==> digits[1..][i] == digits[i + 1];
      assert s[1..] == digits[1..] + [end] + rest;
      NumberEndAfter(digits[1..], end, rest);
    }
  }

  /** A line that announces a UID in the usual form is read as that UID. */
  lemma UidLineIsRead(pre: string, digits: string, end: char, rest: string)
    requires 'U' !in pre && (end == ' ' || end == ')' || end == ']')
    requires digits != "" && Digits(digits) && Number(digits) <= MAX_U32
    ensures UidOf(pre + "UID " + digits + [end] + rest) == Some(Number(digits))
  {
    hide Find, NumberEnd, ParseU32, Trim, Number;
    var after := digits + [end] + rest;
    var line := pre + "UID " + digits + [end] + rest;
    assert line == pre + "UID " + after;
    FindAfter(pre, "UID ", after);
    assert line[|pre| + 4..] == after;
    NumberEndAfter(digits, end, rest);
    assert after[..|digits|] == digits;
    NumbersParse(digits);
  }

  lemma HeaderLineHolds(name: string, value: string)
    requires 0 < |name| < 50 && ':' !in name && !IsSpace(name[0]) && !IsSpace(name[|name| - 1])
    requires name[0] != ')' && name[0] != '*'
    requires value != "" && !IsSpace(value[0]) && !IsSpace(value[|value| - 1])
    ensures HeaderOf(name + ": " + value) == Some(Header(Lower(name), value))
  {
    hide Find, Trim, Lower;
    var line := name + ": " + value;
    TrimDense(line);
    assert line == name + ":" + (" " + value);
    FindAfter(name, ":", " " + value);
    assert line[..|name|] == name && line[|name| + 1..] == " " + value;
    TrimDense(name);
    TrimSpaced(value);
    assert line[..1][0] == name[0];
  }

  /** Blanks around the colon do not matter. */
  lemma BlanksAroundColon(name: string, gap: string, value: string)
    requires name != "" && |name| + |gap| < 50 && ':' !in name && !IsSpace(name[0]) && !IsSpace(name[|name| - 1])
    requires name[0] != ')' && name[0] != '*' && forall i :: 0 <= i < |gap| ==> IsSpace(gap[i])
    requires value != "" && !IsSpace(value[0]) && !IsSpace(value[|value| - 1])
    ensures HeaderOf(name + gap + ":" + value) == HeaderOf(name + ": " + value) == Some(Header(Lower(name), value))
  {
    HeaderLineHolds(name, value);
    NameIsTrimmed(name, gap);
    TrimDense(value);
    var front := name + gap;
    hide Find, Trim, Lower, IsSpace, TrimEnd, HeaderOf;
    assert front[0] == name[0];
    ColonSplits(front, value);
  }

  lemma NameIsTrimmed(name: string, gap: string)
    requires name != "" && !IsSpace(name[0]) && !IsSpace(name[|name| - 1])
    requires forall i :: 0 <= i < |gap| ==> IsSpace(gap[i])
    ensures Trim(name + gap) == name && ':' !in gap
  {
    VisibleStays(gap);
    TrimAfter(name, gap);
    assert name + "" == name;
  }

  /** The first colon ends the name. */
  lemma ColonSplits(front: string, value: string)
    requires 0 < |front| < 50 && ':' !in front && !IsSpace(front[0]) && front[0] != ')' && front[0] != '*'
    requires value != "" && !IsSpace(value[|value| - 1])
    ensures HeaderOf(front + ":" + value) == Some(Header(Lower(Trim(front)), Trim(value)))
  {
    var line := front + ":" + value;
    PartsOfLine(front, value);
    hide Find, Trim, Lower, IsSpace, EndsBlock;
    TrimDense(line);
    FindAfter(front, ":", value);
    NoFrame(line);
  }

  lemma PartsOfLine(front: string, value: string)
    ensures var line := front + ":" + value;
            && line[..|front|] == front && line[|front| + 1..] == value
            && (front != "" ==> line[0] == front[0]) && (value != "" ==> line[|line| - 1] == value[|value| - 1])
  {
  }

  lemma NoFrame(line: string)
    requires line != "" && line[0] != ')' && line[0] != '*'
    ensures !EndsBlock(line)
  {
    PrefixFirst(line, ")");
    PrefixFirst(line, "*");
  }

  // ---- the line-driven parser -----------------------------------------------

  datatype State = State(messages: Messages, uid: Option<nat>, headers: Headers, inBlock: bool)

  const START := State(map[], None, map[], false)

  function Close(st: State): Messages {
    if st.uid.Some? then st.messages[st.uid.value := st.headers] else st.messages
  }

  function Step(st: State, line: string): State {
    if UidOf(line).Some? then
      State(Close(st), UidOf(line), if st.uid.Some? then map[] else st.headers, true)
    else if st.inBlock && HeaderOf(line).Some? then
      st.(headers := st.headers[HeaderOf(line).value.key := HeaderOf(line).value.value])
    else st
  }

  function Fold(st: State, lines: seq<string>): State {
    if lines == [] then st else Step(Fold(st, lines[..|lines| - 1]), lines[|lines| - 1])
  }

  function Parse(lines: seq<string>): Messages {
    Close(Fold(START, lines))
  }

  /** The branch for folded headers picks an arbitrary key of a hash map; it is
      never reached, so the result is a function of the lines. */
  method ParseFetchResponse(lines: seq<string>) returns (messages: Messages)
    ensures messages == Parse(lines)
  {
    messages := map[];
    var currentUid: Option<nat> := None;
    var currentHeaders: Headers := map[];
    var inHeaderBlock := false;
    for i := 0 to |lines|
      invariant State(messages, currentUid, currentHeaders, inHeaderBlock) == Fold(START, lines[..i])
    {
      assert lines[..i + 1][..i] == lines[..i];
      var line := lines[i];
      var uid := UidOf(line);
      if uid.Some? {
        if currentUid.Some? {
          messages := messages[currentUid.value := currentHeaders];
          currentHeaders := map[];
        }
        currentUid := uid;
        inHeaderBlock := true;
        continue;
      }
      if inHeaderBlock {
        var trimmed := Trim(line);
        NeverFolded(line);
        if EndsBlock(trimmed) {
          continue;
        }
        if Folded(trimmed) {
          assert false;
        } else {
          var colon := Find(trimmed, ":");
          if colon.Some? && 0 < colon.value < 50 {
            var key := Lower(Trim(trimmed[..colon.value]));
            var value := Trim(trimmed[colon.value + 1..]);
            currentHeaders := currentHeaders[key := value];
          }
        }
      }
    }
    assert lines[..|lines|] == lines;
    if currentUid.Some? {
      messages := messages[currentUid.value := currentHeaders];
    }
  }

  // ---- what the parser means --------------------------------------------------

  /** The headers of a block of lines; a repeated key keeps its last value. */
  function HeadersOf(block: seq<string>): Headers {
    if block == [] then map[]
    else
      var n := |block| - 1;
      var before := HeadersOf(block[..n]);
      match HeaderOf(block[n])
      case Some(h) => before[h.key := h.value]
      case None => before
  }

  ghost predicate NoUid(lines: seq<string>) {
    forall i :: 0 <= i < |lines| ==> UidOf(lines[i]) == None
  }

  /** Before the first UID line there are no headers. */
  lemma {:induction false} HeadersNeedBlock(lines: seq<string>)
    ensures Fold(START, lines).inBlock <==> Fold(START, lines).uid.Some?
    ensures Fold(START, lines).uid == None ==> Fold(START, lines).headers == map[] && Fold(START, lines).messages == map[]
  {
    if lines == [] {
    } else {
      HeadersNeedBlock(lines[..|lines| - 1]);
    }
  }

  lemma {:induction false} FoldAppend(st: State, a: seq<string>, b: seq<string>)
    ensures Fold(st, a + b) == Fold(Fold(st, a), b)
  {
    if b == [] {
      assert a + b == a;
    } else {
      var n := |b| - 1;
      assert (a + b)[..|a + b| - 1] == a + b[..n];
      FoldAppend(st, a, b[..n]);
    }
  }

  /** Inside one block the parser collects the headers of the block. */
  lemma {:induction false} FoldBlock(messages: Messages, uid: nat, block: seq<string>)
    requires NoUid(block)
    ensures Fold(State(messages, Some(uid), map[], true), block) == State(messages, Some(uid), HeadersOf(block), true)
  {
    if block == [] {
    } else {
      var n := |block| - 1;
      assert NoUid(block[..n]);
      FoldBlock(messages, uid, block[..n]);
      assert UidOf(block[n]) == None;
    }
  }

  /** A UID line and the block after it add one message to what came before. */
  lemma LastBlock(lines: seq<string>, uid: nat, first: string, block: seq<string>)
    requires UidOf(first) == Some(uid) && NoUid(block)
    ensures Parse(lines + [first] + block) == Parse(lines)[uid := HeadersOf(block)]
  {
    FoldAppend(START, lines + [first], block);
    assert (lines + [first])[..|lines|] == lines;
    HeadersNeedBlock(lines);
    FoldBlock(Parse(lines), uid, block);
  }

  /** The position of the last UID line. */
  function LastUid(lines: seq<string>): Option<nat> {
    if lines == [] then None
    else if UidOf(lines[|lines| - 1]).Some? then Some(|lines| - 1)
    else LastUid(lines[..|lines| - 1])
  }

  lemma {:induction false} LastUidIs(lines: seq<string>)
    ensures match LastUid(lines)
            case Some(at) => at < |lines| && UidOf(lines[at]).Some? && NoUid(lines[at + 1..])
            case None => NoUid(lines)
  {
    hide UidOf;
    if lines == [] {
    } else {
      var n := |lines| - 1;
      var front := lines[..n];
      LastUidIs(front);
      if UidOf(lines[n]) == None {
        if LastUid(front).Some? {
          var at := LastUid(front).value;
          assert lines[at] == front[at];
          assert lines[at + 1..] == front[at + 1..] + [lines[n]];
        } else {
          assert lines == front + [lines[n]];
        }
      }
    }
  }

  lemma {:induction false} NoUidNoMessages(lines: seq<string>)
    requires NoUid(lines)
    ensures Fold(START, lines) == START
  {
    if lines == [] {
    } else {
      assert NoUid(lines[..|lines| - 1]);
      NoUidNoMessages(lines[..|lines| - 1]);
      assert UidOf(lines[|lines| - 1]) == None;
    }
  }

  /** Line `i` is the last UID line for `uid`, and its block ends before line `end`. */
  ghost predicate Announces(lines: seq<string>, i: nat, end: nat, uid: nat) {
    && i < end <= |lines|
    && UidOf(lines[i]) == Some(uid)
    && (forall j :: i < j < end ==> UidOf(lines[j]) == None)
    && (end < |lines| ==> UidOf(lines[end]).Some?)
    && (forall j :: i < j < |lines| ==> UidOf(lines[j]) != Some(uid))
  }

  /** The messages are exactly the announced UIDs. */
  lemma {:induction false} ParseKeys(lines: seq<string>, uid: nat)
    ensures uid in Parse(lines) <==> exists i :: 0 <= i < |lines| && UidOf(lines[i]) == Some(uid)
  {
    hide UidOf, HeaderOf, Parse;
    LastUidIs(lines);
    if LastUid(lines) == None {
      NoMessages(lines);
    } else {
      var at := LastUid(lines).value;
      var before, block := lines[..at], lines[at + 1..];
      assert lines == before + [lines[at]] + block;
      LastBlock(before, UidOf(lines[at]).value, lines[at], block);
      ParseKeys(before, uid);
      forall i | at < i < |lines| ensures UidOf(lines[i]) == None {
        assert block[i - at - 1] == lines[i];
      }
      forall i | 0 <= i < at ensures before[i] == lines[i] {
      }
    }
  }

  lemma NoMessages(lines: seq<string>)
    requires NoUid(lines)
    ensures Parse(lines) == map[]
  {
    NoUidNoMessages(lines);
  }

  /** Every message has the headers of the block after its last UID line. */
  lemma {:induction false} ParseIs(lines: seq<string>, i: nat, end: nat, uid: nat)
    requires Announces(lines, i, end, uid)
    ensures uid in Parse(lines) && Parse(lines)[uid] == HeadersOf(lines[i + 1..end])
    decreases |lines|
  {
    hide UidOf, HeaderOf, Parse, HeadersOf;
    LastUidIs(lines);
    var at := LastUid(lines).value;
    var before, block := lines[..at], lines[at + 1..];
    assert lines == before + [lines[at]] + block;
    LastBlock(before, UidOf(lines[at]).value, lines[at], block);
    forall j | at < j < |lines| ensures UidOf(lines[j]) == None {
      assert block[j - at - 1] == lines[j];
    }
    if i < at {
      ParseIs(before, i, end, uid);
      assert before[i + 1..end] == lines[i + 1..end];
    } else {
      assert i == at && end == |lines|;
      assert block == lines[i + 1..end];
    }
  }

  /** Responses compose: what starts with a UID line overrides what came before
      and is not influenced by it. */
  lemma {:induction false} ParseAppend(a: seq<string>, b: seq<string>)
    requires b != [] && UidOf(b[0]).Some?
    ensures Parse(a + b) == Parse(a) + Parse(b)
    decreases |b|
  {
    hide UidOf, HeaderOf, Parse, HeadersOf;
    LastUidIs(b);
    var at := LastUid(b).value;
    var before, uid, block := b[..at], UidOf(b[at]).value, b[at + 1..];
    assert b == before + [b[at]] + block;
    assert a + b == (a + before) + [b[at]] + block;
    LastBlock(before, uid, b[at], block);
    LastBlock(a + before, uid, b[at], block);
    if at == 0 {
      assert a + before == a && before == [];
      NoMessages(before);
    } else {
      assert before[0] == b[0];
      ParseAppend(a, before);
    }
  }

  /** A header is the last line of its block with that key. */
  lemma {:induction false} HeadersAre(block: seq<string>, key: string)
    ensures key in HeadersOf(block) <==>
            exists i :: 0 <= i < |block| && HeaderOf(block[i]).Some? && HeaderOf(block[i]).value.key == key
    ensures forall i :: 0 <= i < |block| && HeaderOf(block[i]).Some? && HeaderOf(block[i]).value.key == key
                        && (forall j :: i < j < |block| && HeaderOf(block[j]).Some? ==> HeaderOf(block[j]).value.key != key)
                        ==> HeadersOf(block)[key] == HeaderOf(block[i]).value.value
  {
    hide HeaderOf;
    if block == [] {
    } else {
      var n := |block| - 1;
      HeadersAre(block[..n], key);
      forall i | 0 <= i < n ensures block[..n][i] == block[i] {
      }
    }
  }

  // ---- continuation lines -------------------------------------------------------

  lemma FoldKeepsUid(fold: char, text: string)
    requires fold == ' ' || fold == '\t'
    ensures UidOf([fold] + text) == UidOf(text)
  {
    hide Trim, NumberEnd, ParseU32;
    var line := [fold] + text;
    assert line[1..] == text;
    PrefixFirst(line, "UID ");
    assert Find(line, "UID ") == match Find(text, "UID ") case Some(i) => Some(i + 1) case None => None;
    hide Find;
    if Find(text, "UID ").Some? {
      var at := Find(text, "UID ").value;
      assert line[at + 1 + 4..] == text[at + 4..];
    }
  }

  lemma FoldTrims(fold: char, text: string)
    requires fold == ' ' || fold == '\t'
    ensures Trim([fold] + text) == Trim(text)
  {
    assert ([fold] + text)[1..] == text;
  }

  lemma FoldKeepsHeader(fold: char, text: string)
    requires fold == ' ' || fold == '\t'
    ensures HeaderOf([fold] + text) == HeaderOf(text)
  {
    FoldTrims(fold, text);
    hide Trim, Find, Lower, EndsBlock;
  }

  lemma FoldedLineIsStep(st: State, fold: char, text: string)
    requires fold == ' ' || fold == '\t'
    ensures Step(st, [fold] + text) == Step(st, text)
  {
    FoldKeepsUid(fold, text);
    FoldKeepsHeader(fold, text);
    hide UidOf, HeaderOf;
  }

  /** A continuation line is read like a line of its own: the blank or tab that
      folds it never makes a difference to the result. */
  lemma FoldingIsIgnored(a: seq<string>, fold: char, text: string, b: seq<string>)
    requires fold == ' ' || fold == '\t'
    ensures Parse(a + [[fold] + text] + b) == Parse(a + [text] + b)
  {
    hide Step;
    FoldAppend(START, a + [[fold] + text], b);
    FoldAppend(START, a + [text], b);
    FoldedLineIsStep(Fold(START, a), fold, text);
    assert (a + [[fold] + text])[..|a|] == a && (a + [text])[..|a|] == a;
  }

  // ---- lines of a block -----------------------------------------------------------

  function Plus(headers: Headers, h: Option<Header>): Headers {
    match h
    case Some(header) => headers[header.key := header.value]
    case None => headers
  }

  /** At the end of any block the line adds this header, or nothing, to its message. */
  ghost predicate JoinsBlock(line: string, h: Option<Header>) {
    forall lines, first, block | UidOf(first).Some? && NoUid(block) ::
      Parse(lines + [first] + block + [line]) == Parse(lines)[UidOf(first).value := Plus(HeadersOf(block), h)]
  }

  lemma HeadersSnoc(block: seq<string>, line: string)
    ensures HeadersOf(block + [line]) == Plus(HeadersOf(block), HeaderOf(line))
  {
    assert (block + [line])[..|block|] == block;
  }

  /** A line that announces a UID starts a message, whatever else it looks like. */
  lemma UidLineStartsMessage(lines: seq<string>, line: string)
    requires UidOf(line).Some?
    ensures Parse(lines + [line]) == Parse(lines)[UidOf(line).value := map[]]
  {
    LastBlock(lines, UidOf(line).value, line, []);
    assert lines + [line] + [] == lines + [line];
  }

  /** A line of another UID than this one. */
  lemma OtherUid(uid: nat) returns (first: string)
    ensures UidOf(first).Some? && UidOf(first).value != uid
  {
    UidLineIsRead("", "1", ' ', "");
    UidLineIsRead("", "2", ' ', "");
    assert Number("1") == 1 && Number("2") == 2;
    hide UidOf;
    first := if uid == 1 then "" + "UID " + "2" + [' '] + "" else "" + "UID " + "1" + [' '] + "";
  }

  /** A line adds the header it holds to the message of its block exactly when it does
      not announce a UID. */
  lemma LineJoinsBlockIff(line: string)
    ensures JoinsBlock(line, HeaderOf(line)) <==> UidOf(line) == None
  {
    hide UidOf, HeaderOf, Parse, HeadersOf, Plus;
    if UidOf(line) == None {
      forall lines, first, block | UidOf(first).Some? && NoUid(block)
        ensures Parse(lines + [first] + block + [line])
                == Parse(lines)[UidOf(first).value := Plus(HeadersOf(block), HeaderOf(line))]
      {
        LastBlock(lines, UidOf(first).value, first, block + [line]);
        HeadersSnoc(block, line);
        assert lines + [first] + block + [line] == lines + [first] + (block + [line]);
      }
    } else {
      var first := OtherUid(UidOf(line).value);
      UidLineStartsMessage([first], line);
      NoMessages([]);
      var lines: seq<string>, block: seq<string> := [], [];
      assert lines + [first] + block + [line] == [first] + [line];
      assert UidOf(line).value in Parse(lines + [first] + block + [line]);
    }
  }

  /** A line of header form sets that header exactly when it announces no UID. */
  lemma HeaderLineIsReadIff(name: string, value: string)
    requires 0 < |name| < 50 && ':' !in name && !IsSpace(name[0]) && !IsSpace(name[|name| - 1])
    requires name[0] != ')' && name[0] != '*'
    requires value != "" && !IsSpace(value[0]) && !IsSpace(value[|value| - 1])
    ensures JoinsBlock(name + ": " + value, Some(Header(Lower(name), value))) <==> UidOf(name + ": " + value) == None
  {
    HeaderLineHolds(name, value);
    LineJoinsBlockIff(name + ": " + value);
  }

  /** A line without a name, or with one of fifty characters or more, is no header. */
  lemma OddNameIsNoHeaderIff(name: string, value: string)
    requires ':' !in name && (name == "" || (|name| >= 50 && !IsSpace(name[0])))
    ensures JoinsBlock(name + ":" + value, None) <==> UidOf(name + ":" + value) == None
  {
    var line := name + ":" + value;
    var word := name + ":";
    assert word[0] == if name == "" then ':' else name[0];
    TrimAfter(word, value);
    FindAfter(name, ":", TrimEnd(value));
    assert word + TrimEnd(value) == name + ":" + TrimEnd(value);
    assert HeaderOf(line) == None by {
      hide Trim, Find, TrimEnd, Lower;
    }
    LineJoinsBlockIff(line);
  }

  /** The lines that frame a block hold no header, whatever colons they have. */
  lemma FrameIsNoHeaderIff(line: string, a: string, b: string)
    requires line == ")" + a || line == "*" + a + "FETCH" + b
    ensures JoinsBlock(line, None) <==> UidOf(line) == None
  {
    if line == ")" + a {
      TrimAfter(")", a);
      assert (")" + TrimEnd(a))[..1] == ")";
    } else {
      var word := "*" + a + "FETCH";
      TrimAfter(word, b);
      var trimmed := word + TrimEnd(b);
      assert trimmed == ("*" + a) + "FETCH" + TrimEnd(b);
      FindSome("*" + a, "FETCH", TrimEnd(b));
      assert trimmed[..1] == "*";
    }
    assert HeaderOf(line) == None by {
      hide Trim, Find, TrimEnd, Lower;
    }
    LineJoinsBlockIff(line);
  }

  /** So a value with a UID in it, which its sender may have written, starts a message
      of that UID and loses the header. */
  lemma HeaderValueStartsMessage(
      lines: seq<string>, name: string, pre: string, digits: string, end: char, rest: string)
    requires 'U' !in name && 'U' !in pre && (end == ' ' || end == ')' || end == ']')
    requires digits != "" && Digits(digits) && Number(digits) <= MAX_U32
    ensures Parse(lines + [name + ": " + (pre + "UID " + digits + [end] + rest)]) == Parse(lines)[Number(digits) := map[]]
  {
    var line := name + ": " + (pre + "UID " + digits + [end] + rest);
    var before := name + ": " + pre;
    assert line == before + "UID " + digits + [end] + rest;
    UidLineIsRead(before, digits, end, rest);
    UidLineStartsMessage(lines, line);
  }

  /** A continuation line is never joined to the header it continues.  One of header
      form becomes a header of its own, in place of an earlier one of that name,
      exactly when it announces no UID. */
  lemma ContinuationIsAHeaderIff(fold: char, name: string, value: string)
    requires fold == ' ' || fold == '\t'
    requires 0 < |name| < 50 && ':' !in name && !IsSpace(name[0]) && !IsSpace(name[|name| - 1])
    requires name[0] != ')' && name[0] != '*'
    requires value != "" && !IsSpace(value[0]) && !IsSpace(value[|value| - 1])
    ensures JoinsBlock([fold] + (name + ": " + value), Some(Header(Lower(name), value)))
            <==> UidOf(name + ": " + value) == None
  {
    hide HeaderOf, Lower, IsSpace, UidOf, JoinsBlock;
    FoldKeepsHeader(fold, name + ": " + value);
    FoldKeepsUid(fold, name + ": " + value);
    HeaderLineHolds(name, value);
    LineJoinsBlockIff([fold] + (name + ": " + value));
  }

  /** Without a colon it is dropped, again exactly when it announces no UID. */
  lemma ContinuationIsDroppedIff(fold: char, text: string)
    requires (fold == ' ' || fold == '\t') && ':' !in text
    ensures JoinsBlock([fold] + text, None) <==> UidOf(text) == None
  {
    FoldKeepsHeader(fold, text);
    FoldKeepsUid(fold, text);
    TrimIsPart(text);
    FindNone(Trim(text), ":");
    assert HeaderOf(text) == None;
    hide HeaderOf, UidOf, JoinsBlock;
    LineJoinsBlockIff([fold] + text);
  }

  // ---- EXISTS counts -----------------------------------------------------------

  /** The message count a pushed line announces, if it announces one. */
  function ExistsOf(line: string): Option<nat> {
    var trimmed := Trim(line);
    if !StartsWith(trimmed, "* ") then None
    else
      var rest := trimmed[2..];
      match FindLast(rest, " EXISTS")
      case None => None
      case Some(at) => ParseU32(Trim(rest[..at]))
  }

  lemma {:induction false} FindLastAfter(word: string)
    requires ' ' !in word
    ensures FindLast(word + " EXISTS", " EXISTS") == Some(|word|)
  {
    var key := " EXISTS";
    var s := word + key;
    if word == "" {
      assert s == key;
      assert ' ' !in key[1..];
      FindNone(key[1..], key);
      assert key[..|key|] == key;
    } else {
      assert s[1..] == word[1..] + key;
      FindLastAfter(word[1..]);
    }
  }

  /** The answer servers push for new mail is read as its count. */
  lemma ExistsLineIsRead(digits: string)
    requires digits != "" && Digits(digits) && Number(digits) <= MAX_U32
    ensures ExistsOf("* " + digits + " EXISTS") == Some(Number(digits))
  {
    hide FindLast, Trim, ParseU32, Number;
    var line := "* " + digits + " EXISTS";
    TrimDense(line);
    assert line[..2] == "* " && line[2..] == digits + " EXISTS";
    assert ' ' !in digits by {
      assert forall i :: 0 <= i < |digits| ==> IsDigit(digits[i]);
    }
    FindLastAfter(digits);
    assert (digits + " EXISTS")[..|digits|] == digits;
    NumbersParse(digits);
  }

  /** Lines that do not start with an asterisk announce no count. */
  lemma OtherLinesCountNothing(c: char, rest: string)
    requires c != '*' && !IsSpace(c)
    ensures ExistsOf([c] + rest) == None
  {
    TrimAfter([c], rest);
    PrefixFirst([c] + TrimEnd(rest), "* ");
  }

  /** The highest count announced, or zero. */
  method ParseExistsCount(lines: seq<string>) returns (count: nat)
    ensures forall i :: 0 <= i < |lines| && ExistsOf(lines[i]).Some? ==> ExistsOf(lines[i]).value <= count
    ensures count == 0 || exists i :: 0 <= i < |lines| && ExistsOf(lines[i]) == Some(count)
  {
    count := 0;
    for i := 0 to |lines|
      invariant forall j :: 0 <= j < i && ExistsOf(lines[j]).Some? ==> ExistsOf(lines[j]).value <= count
      invariant count == 0 || exists j :: 0 <= j < i && ExistsOf(lines[j]) == Some(count)
    {
      var n := ExistsOf(lines[i]);
      if n.Some? && n.value > count {
        count := n.value;
      }
    }
  }
}
