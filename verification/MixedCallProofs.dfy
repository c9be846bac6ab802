/** The two parsers compared, and their loops. */
module MixedCallProofs {
  import opened Wrappers
  import opened MixedCall

  // ----- the two parsers agree -----

  lemma {:induction false} DigitsStopAtToken(s: string, from: nat, e: nat)
    requires from <= e <= |s| && (e < |s| ==> !IsDigit(s[e]))
    ensures DigitsEnd(s, from, |s|) == DigitsEnd(s, from, e)
    decreases e - from
  {
    if from < e && IsDigit(s[from]) {
      DigitsStopAtToken(s, from + 1, e);
    }
  }

  lemma {:induction false} TokenHasNoBlank(s: string, pos: nat, k: nat)
    requires pos <= k <= |s|
    ensures k < TokenEnd(s, pos) ==> s[k] != ' '
    ensures TokenEnd(s, pos) < |s| ==> s[TokenEnd(s, pos)] == ' '
    decreases k - pos
  {
    if pos < k && s[pos] != ' ' {
      TokenHasNoBlank(s, pos + 1, k);
    } else if pos == k {
      TokenStopsAtBlank(s, pos);
    }
  }

  lemma {:induction false} TokenStopsAtBlank(s: string, pos: nat)
    requires pos <= |s|
    ensures TokenEnd(s, pos) < |s| ==> s[TokenEnd(s, pos)] == ' '
    decreases |s| - pos
  {
    if pos < |s| && s[pos] != ' ' {
      TokenStopsAtBlank(s, pos + 1);
    }
  }

  /** Blanks other than ' ', which `strtol` skips and the tokens of the ESP parser keep. */
  predicate IsControlBlank(c: char) { '\t' <= c <= '\r' }

  predicate AllControl(s: string, from: nat, end: nat)
    requires from <= end <= |s|
  {
    forall k | from <= k < end :: IsControlBlank(s[k])
  }

  /** One of the tokens before the quote, from `at` on, is made of control blanks only. */
  predicate HasControlToken(s: string, at: nat)
    requires at <= |s|
    decreases |s| - at
  {
    var pos := SkipSpaces(s, at);
    pos < |s| && s[pos] != '"' &&
    var end := TokenEnd(s, pos);
    AllControl(s, pos, end) || (at < end && HasControlToken(s, end))
  }

  lemma {:induction false} SkippingStaysInToken(s: string, pos: nat, k: nat, e: nat)
    requires pos <= k < e <= |s| && !IsSpace(s[k])
    ensures SkipBlank(s, pos, e) == SkipBlank(s, pos, |s|) <= k
    decreases k - pos
  {
    if pos < k && IsSpace(s[pos]) {
      SkippingStaysInToken(s, pos + 1, k, e);
    }
  }

  /** Unless the token is made of control blanks, reading a number up to its end or up to the
      end of the string is the same. */
  lemma NumberEndsInToken(s: string, pos: nat)
    requires pos < |s| && s[pos] != ' ' && !AllControl(s, pos, TokenEnd(s, pos))
    ensures Strtol(s, pos, TokenEnd(s, pos)) == Strtol(s, pos, |s|)
    ensures pos <= Strtol(s, pos, |s|).1 <= TokenEnd(s, pos)
  {
    var e := TokenEnd(s, pos);
    var k :| pos <= k < e && !IsControlBlank(s[k]);
    TokenHasNoBlank(s, pos, k);
    SkippingStaysInToken(s, pos, k, e);
    ReadInToken(s, pos, e);
  }

  lemma ReadInToken(s: string, pos: nat, e: nat)
    requires pos < e <= |s| && (e < |s| ==> s[e] == ' ') && SkipBlank(s, pos, e) == SkipBlank(s, pos, |s|) < e
    ensures Strtol(s, pos, e) == Strtol(s, pos, |s|) && pos <= Strtol(s, pos, e).1 <= e
  {
    var start := SkipBlank(s, pos, e);
    DigitsStopAtToken(s, start, e);
    DigitsStopAtToken(s, start + 1, e);
  }

  /** In a token of control blanks no number ends with it. */
  lemma {:induction false} ControlHasNoNumber(s: string, pos: nat, e: nat)
    requires pos <= e <= |s| && AllControl(s, pos, e)
    ensures SkipBlank(s, pos, e) == e
    decreases e - pos
  {
    if pos < e {
      ControlHasNoNumber(s, pos + 1, e);
    }
  }

  /** A reader that does not look past the blank after a token, unless it is made of control
      blanks, and finds nothing inside one that is. */
  ghost predicate TokenWise(read: NumberReader, s: string) {
    forall pos | 0 <= pos < |s| && s[pos] != ' ' :: ReadsToken(read, s, pos)
  }

  ghost predicate ReadsToken(read: NumberReader, s: string, pos: nat)
    requires pos < |s|
  {
    var e := TokenEnd(s, pos);
    if AllControl(s, pos, e) then read(s, pos, e).1 == pos
    else read(s, pos, e) == read(s, pos, |s|) && pos <= read(s, pos, |s|).1 <= e
  }

  lemma StrtolIsTokenWise(s: string)
    ensures TokenWise(Strtol, s)
  {
    forall pos | 0 <= pos < |s| && s[pos] != ' '
      ensures ReadsToken(Strtol, s, pos)
    {
      if AllControl(s, pos, TokenEnd(s, pos)) {
        ControlHasNoNumber(s, pos, TokenEnd(s, pos));
      } else {
        NumberEndsInToken(s, pos);
      }
    }
  }

  lemma {:induction false} SkippedToNonBlank(s: string, pos: nat)
    requires pos <= |s|
    ensures SkipSpaces(s, pos) < |s| ==> s[SkipSpaces(s, pos)] != ' '
    decreases |s| - pos
  {
    if pos < |s| && s[pos] == ' ' {
      SkippedToNonBlank(s, pos + 1);
    }
  }

  lemma {:induction false} NumbersAgree(read: NumberReader, s: string, at: nat, acc: seq<int32>)
    requires TokenWise(read, s) && at <= |s| && |acc| <= MAX_NUMBERS && !HasControlToken(s, at)
    ensures NeoNumbers(read, s, SkipSpaces(s, at), acc) == EspNumbers(read, s, at, acc)
    decreases |s| - at
  {
    var pos := SkipSpaces(s, at);
    SkippedToNonBlank(s, at);
    if pos < |s| && s[pos] != '"' {
      assert ReadsToken(read, s, pos);
      var (v, end) := read(s, pos, |s|);
      TokenHasNoBlank(s, pos, end);
      if |acc| < MAX_NUMBERS && end != pos && end == TokenEnd(s, pos) && FitsInt32(v) {
        NumbersAgree(read, s, end, acc + [v]);
      }
    }
  }

  /** A token of control blanks is never a number for the ESP parser. */
  lemma {:induction false} ControlTokenIsRefused(read: NumberReader, s: string, at: nat, acc: seq<int32>)
    requires TokenWise(read, s) && at <= |s| && HasControlToken(s, at)
    ensures EspNumbers(read, s, at, acc) == None
    decreases |s| - at
  {
    var pos := SkipSpaces(s, at);
    SkippedToNonBlank(s, at);
    assert ReadsToken(read, s, pos);
    var end := TokenEnd(s, pos);
    var (v, stop) := read(s, pos, end);
    if !AllControl(s, pos, end) && FitsInt32(v) {
      ControlTokenIsRefused(read, s, end, acc + [v]);
    }
  }

  /** Both text loops read the same, except that Neo stops at 191 characters and at the first
      that is not printable. */
  lemma {:induction false} TextsAgree(s: string, pos: nat, acc: string)
    requires AllPrintable(acc) && pos <= |s| && |acc| <= NEO_TEXT
    ensures var esp := EspText(s, pos, acc);
            NeoText(s, pos, acc) == if esp.Some? && NeoTakes(esp.value.1) then esp else None
    decreases |s| - pos
  {
    if pos < |s| && s[pos] != '"' {
      if s[pos] != '\\' {
        OneMoreCharacter(s, pos + 1, acc, s[pos]);
        if |acc| < NEO_TEXT && Printable(s[pos]) {
          TextsAgree(s, pos + 1, acc + [s[pos]]);
        }
      } else if pos + 1 < |s| && (s[pos + 1] == '"' || s[pos + 1] == '\\') {
        OneMoreCharacter(s, pos + 2, acc, s[pos + 1]);
        if |acc| < NEO_TEXT {
          TextsAgree(s, pos + 2, acc + [s[pos + 1]]);
        }
      }
    }
  }

  /** A text that Neo has room for and prints. */
  predicate NeoTakes(text: string) { |text| <= NEO_TEXT && AllPrintable(text) }

  /** A character that Neo does not take, or has no room for, stays in the text. */
  lemma OneMoreCharacter(s: string, pos: nat, acc: string, c: char)
    requires pos <= |s|
    ensures var esp := EspText(s, pos, acc + [c]);
            esp.Some? && NeoTakes(esp.value.1) ==> |acc| < NEO_TEXT && Printable(c)
  {
    TextGrows(s, pos, acc + [c]);
    var esp := EspText(s, pos, acc + [c]);
    if esp.Some? {
      assert esp.value.1[|acc|] == (acc + [c])[|acc|] == c;
    }
  }

  lemma {:induction false} TextGrows(s: string, pos: nat, acc: string)
    requires pos <= |s|
    ensures EspText(s, pos, acc).Some? ==> acc <= EspText(s, pos, acc).value.1
    decreases |s| - pos
  {
    if pos < |s| && s[pos] != '"' {
      if s[pos] != '\\' {
        TextGrows(s, pos + 1, acc + [s[pos]]);
      } else if pos + 1 < |s| {
        TextGrows(s, pos + 2, acc + [s[pos + 1]]);
      }
    }
  }

  /** What Neo should accept: what the ESP parser accepts with at most 191 characters of text. */
  function EspShort(s: string): Option<Arguments> {
    var esp := EspParse(s);
    if esp.Some? && |esp.value.text| <= NEO_TEXT then esp else None
  }

  /** Every body, well-formed or not, printable or not: without a token of control blanks
      before the quote, Neo reads what the ESP parser reads, if the text is printable. */
  lemma ParsersCompare(s: string)
    ensures if HasControlToken(s, 0) then EspParse(s) == None
            else NeoParse(s) == if EspParse(s).Some? && NeoTakes(EspParse(s).value.text) then EspParse(s) else None
  {
    StrtolIsTokenWise(s);
    if HasControlToken(s, 0) {
      ControlTokenIsRefused(Strtol, s, 0, []);
    } else {
      NumbersAgree(Strtol, s, 0, []);
      var numbers := EspNumbers(Strtol, s, 0, []);
      if numbers.Some? {
        RestsCompare(s, numbers.value.0, numbers.value.1);
      }
    }
  }

  lemma RestsCompare(s: string, pos: nat, numbers: seq<int32>)
    requires pos <= |s|
    ensures var esp := EspRest(s, pos, numbers);
            NeoRest(s, pos, numbers) == if esp.Some? && NeoTakes(esp.value.text) then esp else None
  {
    if pos < |s| {
      TextsAgree(s, pos + 1, "");
    }
  }

  lemma {:induction false} PrintableHasNoControl(s: string, at: nat)
    requires AllPrintable(s) && at <= |s|
    ensures !HasControlToken(s, at)
    decreases |s| - at
  {
    var pos := SkipSpaces(s, at);
    SkippedToNonBlank(s, at);
    if pos < |s| {
      assert Printable(s[pos]);
      PrintableHasNoControl(s, TokenEnd(s, pos));
    }
  }

  /** A tab of its own between two numbers: Neo skips it, the ESP parser refuses it. */
  lemma TabSplitsNumbers()
    ensures var s := ['5', ' ', '\t', ' ', '6', ' ', '"', '"'];
            NeoParse(s) == Some(Arguments([5, 6], "")) && EspParse(s) == None
  {
    var s := ['5', ' ', '\t', ' ', '6', ' ', '"', '"'];
    var five: seq<int32>, both: seq<int32> := [5], [5, 6];
    assert [] + five == five && five + [6] == both;
    assert SkipSpaces(s, 0) == 0 && SkipSpaces(s, 1) == 2 && SkipSpaces(s, 5) == 6 && SkipSpaces(s, 8) == 8;
    assert NeoNumbers(Strtol, s, 6, both) == Some((6, both));
    assert NeoNumbers(Strtol, s, 2, five) == Some((6, both));
    assert NeoNumbers(Strtol, s, 0, []) == Some((6, both));
    assert NeoText(s, 7, "") == Some((8, ""));
    assert TokenEnd(s, 0) == 1 && TokenEnd(s, 2) == 3;
    assert HasControlToken(s, 1);
    assert HasControlToken(s, 0);
    ParsersCompare(s);
  }

  /** A tab in the text: the ESP parser takes it, Neo refuses it. */
  lemma TabSplitsTexts()
    ensures var s := ['"', '\t', '"'];
            EspParse(s) == Some(Arguments([], "\t")) && NeoParse(s) == None
  {
    var s := ['"', '\t', '"'];
    assert SkipSpaces(s, 0) == 0;
    assert EspNumbers(Strtol, s, 0, []) == Some((0, []));
    assert EspText(s, 2, ['\t']) == Some((3, ['\t']));
    assert [] + ['\t'] == ['\t'];
    assert EspText(s, 1, "") == Some((3, ['\t']));
    assert SkipSpaces(s, 3) == 3;
    assert EspParse(s) == Some(Arguments([], "\t"));
    assert !HasControlToken(s, 0);
    ParsersCompare(s);
    assert !Printable("\t"[0]);
  }

  // ----- the parsers as loops -----

  /** `noob_native_parse`: a cursor advanced over the text, filling the arguments. */
  method NeoParser(s: string) returns (r: Option<Arguments>)
    ensures r == NeoParse(s)
  {
    var found := NeoScan(Strtol, s);
    if found.None? || found.value.0 == |s| {
      return None;
    }
    r := NeoTail(s, found.value.0 + 1, found.value.1);
  }

  /** Its number loop, for any way of reading a number. */
  method NeoScan(read: NumberReader, s: string) returns (found: Option<(nat, seq<int32>)>)
    ensures found == NeoNumbers(read, s, SkipSpaces(s, 0), [])
  {
    var pos := 0;
    while pos < |s| && s[pos] == ' '
      invariant pos <= |s| && SkipSpaces(s, 0) == SkipSpaces(s, pos)
    {
      pos := pos + 1;
    }
    var numbers: seq<int32> := [];
    while pos < |s| && s[pos] != '"'
      invariant pos <= |s| && (pos < |s| ==> s[pos] != ' ')
      invariant NeoNumbers(read, s, SkipSpaces(s, 0), []) == NeoNumbers(read, s, pos, numbers)
      decreases |s| - pos
    {
      if |numbers| == MAX_NUMBERS {
        return None;
      }
      var (v, end) := read(s, pos, |s|);
      if !(pos < end <= |s|) || !FitsInt32(v) || (end < |s| && s[end] != ' ') {
        return None;
      }
      numbers := numbers + [v];
      pos := end;
      while pos < |s| && s[pos] == ' '
        invariant end <= pos <= |s| && SkipSpaces(s, end) == SkipSpaces(s, pos)
      {
        pos := pos + 1;
      }
    }
    return Some((pos, numbers));
  }

  method NeoTail(s: string, start: nat, numbers: seq<int32>) returns (r: Option<Arguments>)
    requires start <= |s|
    ensures var text := NeoText(s, start, "");
            r == if text.None? || SkipSpaces(s, text.value.0) != |s| then None else Some(Arguments(numbers, text.value.1))
  {
    var pos, text := start, "";
    while pos < |s| && s[pos] != '"'
      invariant start <= pos <= |s| && NeoText(s, start, "") == NeoText(s, pos, text)
      decreases |s| - pos
    {
      var c := s[pos];
      pos := pos + 1;
      if c == '\\' {
        if pos == |s| || (s[pos] != '\\' && s[pos] != '"') {
          return None;
        }
        c := s[pos];
        pos := pos + 1;
      }
      if !Printable(c) || |text| + 1 > NEO_TEXT {
        return None;
      }
      text := text + [c];
    }
    if pos == |s| {
      return None;
    }
    pos := pos + 1;
    ghost var closed := pos;
    while pos < |s| && s[pos] == ' '
      invariant closed <= pos <= |s| && SkipSpaces(s, closed) == SkipSpaces(s, pos)
    {
      pos := pos + 1;
    }
    return if pos == |s| then Some(Arguments(numbers, text)) else None;
  }

  /** The argument parser of `callMixedNative`, from the end of the selector. */
  method EspParser(s: string) returns (r: Option<Arguments>)
    ensures r == EspParse(s)
  {
    var found := EspScan(Strtol, s);
    if found.None? || found.value.0 == |s| {
      return None;
    }
    r := EspTail(s, found.value.0 + 1, found.value.1);
  }

  /** Its token loop, for any way of reading a number. */
  method EspScan(read: NumberReader, s: string) returns (found: Option<(nat, seq<int32>)>)
    ensures found == EspNumbers(read, s, 0, [])
  {
    var pos := 0;
    var numbers: seq<int32> := [];
    while pos < |s|
      invariant pos <= |s|
      invariant EspNumbers(read, s, 0, []) == EspNumbers(read, s, pos, numbers)
      decreases |s| - pos
    {
      ghost var at := pos;
      while pos < |s| && s[pos] == ' '
        invariant at <= pos <= |s| && SkipSpaces(s, at) == SkipSpaces(s, pos)
      {
        pos := pos + 1;
      }
      if pos >= |s| || s[pos] == '"' {
        break;
      }
      var end := pos;
      while end < |s| && s[end] != ' '
        invariant pos <= end <= |s| && TokenEnd(s, pos) == TokenEnd(s, end)
      {
        end := end + 1;
      }
      var (v, stop) := read(s, pos, end);
      if |numbers| >= MAX_NUMBERS || stop == pos || stop != end || !FitsInt32(v) {
        return None;
      }
      numbers := numbers + [v];
      pos := end;
    }
    return Some((pos, numbers));
  }

  /** The quoted text and the end of the request. */
  method EspTail(s: string, start: nat, numbers: seq<int32>) returns (r: Option<Arguments>)
    requires start <= |s|
    ensures var text := EspText(s, start, "");
            r == if text.None? || SkipSpaces(s, text.value.0) != |s| then None else Some(Arguments(numbers, text.value.1))
  {
    var pos, text, closed := start, "", false;
    while pos < |s|
      invariant start <= pos <= |s| && EspText(s, start, "") == EspText(s, pos, text)
      decreases |s| - pos
    {
      var c := s[pos];
      pos := pos + 1;
      if c == '"' {
        closed := true;
        break;
      }
      if c == '\\' {
        if pos >= |s| {
          break;
        }
        c := s[pos];
        pos := pos + 1;
        if c != '"' && c != '\\' {
          return None;
        }
      }
      text := text + [c];
      if |text| > ESP_TEXT {
        return None;
      }
    }
    if !closed {
      return None;
    }
    ghost var end := pos;
    while pos < |s| && s[pos] == ' '
      invariant end <= pos <= |s| && SkipSpaces(s, end) == SkipSpaces(s, pos)
    {
      pos := pos + 1;
    }
    return if pos == |s| then Some(Arguments(numbers, text)) else None;
  }
}
