/** The bodies of CALL_MIXED as a grammar, independent of both parsers: exactly which bodies
    each parser accepts, with which meaning, and so exactly where they differ. */
module MixedCallGrammar {
  import opened Wrappers
  import opened MixedCall
  import opened MixedCallProofs

  /** Blanks, a sign or none, digits, and one ' ' behind them. */
  datatype Item = Item(blanks: string, sign: string, digits: string)

  /** Items, `gap` times ' ', a text in quotes, `tail` times ' '. */
  datatype Body = Body(items: seq<Item>, gap: nat, text: string, tail: nat)

  function Spaces(n: nat): (s: string)
    ensures |s| == n && forall k | 0 <= k < n :: s[k] == ' '
  {
    seq(n, _ => ' ')
  }

  function ShowItem(x: Item): string { x.blanks + x.sign + x.digits + " " }

  function ShowItems(items: seq<Item>): string {
    if items == [] then [] else ShowItem(items[0]) + ShowItems(items[1..])
  }

  function ShowRest(b: Body): string { "\"" + Escape(b.text) + "\"" + Spaces(b.tail) }

  function Show(b: Body): string { ShowItems(b.items) + Spaces(b.gap) + ShowRest(b) }

  function ValueOfItem(x: Item): int {
    var magnitude: int := DigitsValue(x.digits, 0, |x.digits|);
    if x.sign == "-" then -magnitude else magnitude
  }

  predicate GoodItem(x: Item) {
    && (forall k | 0 <= k < |x.blanks| :: IsSpace(x.blanks[k]))
    && (x.sign == "" || x.sign == "-" || x.sign == "+")
    && x.digits != "" && (forall k | 0 <= k < |x.digits| :: IsDigit(x.digits[k]))
    && FitsInt32(ValueOfItem(x))
  }

  predicate GoodItems(items: seq<Item>) { forall k | 0 <= k < |items| :: GoodItem(items[k]) }

  function Values(items: seq<Item>): (r: seq<int32>)
    requires GoodItems(items)
    ensures |r| == |items|
  {
    if items == [] then [] else [ValueOfItem(items[0])] + Values(items[1..])
  }

  /** At most eight numbers of 32 bits, and at most 255 characters of text. */
  predicate WellFormed(b: Body) {
    GoodItems(b.items) && |b.items| <= MAX_NUMBERS && |b.text| <= ESP_TEXT
  }

  function Meaning(b: Body): Arguments
    requires WellFormed(b)
  {
    Arguments(Values(b.items), b.text)
  }

  /** In front of a number no ' ' follows a control blank. */
  predicate TightItem(x: Item) {
    forall i, j | 0 <= i < j < |x.blanks| :: x.blanks[j] == ' ' ==> x.blanks[i] == ' '
  }

  predicate Tight(items: seq<Item>) { forall k | 0 <= k < |items| :: TightItem(items[k]) }

  // ----- where parts of a body stand -----

  /** `t` stands in `s` from `at` on. */
  predicate Stands(s: string, at: nat, t: string) {
    at + |t| <= |s| && forall k | 0 <= k < |t| :: s[at + k] == t[k]
  }

  lemma StandsJoined(s: string, at: nat, x: string, y: string)
    ensures Stands(s, at, x + y) <==> Stands(s, at, x) && Stands(s, at + |x|, y)
  {
    if Stands(s, at, x + y) {
      forall k | 0 <= k < |y| ensures s[at + |x| + k] == y[k] {
        assert s[at + (|x| + k)] == (x + y)[|x| + k];
      }
      forall k | 0 <= k < |x| ensures s[at + k] == x[k] {
        assert s[at + k] == (x + y)[k];
      }
    }
    if Stands(s, at, x) && Stands(s, at + |x|, y) {
      forall k | 0 <= k < |x + y| ensures s[at + k] == (x + y)[k] {
        if k >= |x| {
          assert s[at + |x| + (k - |x|)] == y[k - |x|];
        }
      }
    }
  }

  lemma OneStands(s: string, at: nat, c: char)
    ensures Stands(s, at, [c]) <==> at < |s| && s[at] == c
  {
    if Stands(s, at, [c]) {
      assert s[at + 0] == [c][0];
    }
  }

  lemma CutStands(s: string, at: nat, end: nat)
    requires at <= end <= |s|
    ensures Stands(s, at, s[at..end])
  {
  }

  /** Blanks from `at` to `start`, a sign up to `from`, digits up to `end`, one ' '. */
  predicate PartsAt(s: string, at: nat, x: Item, start: nat, from: nat, end: nat) {
    && start == at + |x.blanks| && from == start + |x.sign| && end == from + |x.digits| && end < |s| && s[end] == ' '
    && Stands(s, at, x.blanks) && Stands(s, start, x.sign) && Stands(s, from, x.digits)
  }

  lemma ItemParts(s: string, at: nat, x: Item, start: nat, from: nat, end: nat)
    requires start == at + |x.blanks| && from == start + |x.sign| && end == from + |x.digits|
    ensures Stands(s, at, ShowItem(x)) <==> PartsAt(s, at, x, start, from, end)
    ensures |ShowItem(x)| == end + 1 - at
  {
    StandsJoined(s, at, x.blanks + x.sign + x.digits, " ");
    StandsJoined(s, at, x.blanks + x.sign, x.digits);
    StandsJoined(s, at, x.blanks, x.sign);
    OneStands(s, end, ' ');
  }

  /** The items stand from `at` to `end`. */
  predicate ItemsAt(s: string, at: nat, items: seq<Item>, end: nat)
    decreases |items|
  {
    if items == [] then at == end
    else Stands(s, at, ShowItem(items[0])) && ItemsAt(s, at + |ShowItem(items[0])|, items[1..], end)
  }

  lemma {:induction false} ItemsStand(s: string, at: nat, items: seq<Item>, end: nat)
    requires at <= |s|
    ensures ItemsAt(s, at, items, end) <==> Stands(s, at, ShowItems(items)) && end == at + |ShowItems(items)|
    decreases |items|
  {
    if items != [] {
      var x := ShowItem(items[0]);
      StandsJoined(s, at, x, ShowItems(items[1..]));
      if Stands(s, at, x) {
        ItemsStand(s, at + |x|, items[1..], end);
      }
    }
  }

  predicate SpacesAt(s: string, from: nat, end: nat) {
    from <= end <= |s| && forall k | from <= k < end :: s[k] == ' '
  }

  lemma SpacesStand(s: string, at: nat, n: nat)
    ensures Stands(s, at, Spaces(n)) <==> SpacesAt(s, at, at + n)
  {
    if Stands(s, at, Spaces(n)) {
      forall k | at <= k < at + n ensures s[k] == ' ' {
        assert s[at + (k - at)] == Spaces(n)[k - at];
      }
    }
  }

  // ----- numbers: the loop, for any reader -----

  /** From `at` to `end` stand values as `read` reads them, after blanks, one ' ' behind each. */
  ghost predicate ReadableAt(read: NumberReader, s: string, at: nat, values: seq<int32>, end: nat)
    decreases |values|
  {
    if values == [] then at == end
    else
      && at <= |s|
      && var pos := SkipSpaces(s, at);
         pos < |s| && s[pos] != '"' &&
         var (v, e) := read(s, pos, |s|);
         pos < e < |s| && s[e] == ' ' && v == values[0] && ReadableAt(read, s, e + 1, values[1..], end)
  }

  lemma {:induction false} SkippedAre(s: string, at: nat)
    requires at <= |s|
    ensures SpacesAt(s, at, SkipSpaces(s, at))
    decreases |s| - at
  {
    if at < |s| && s[at] == ' ' {
      SkippedAre(s, at + 1);
    }
  }

  lemma {:induction false} SpacesAreSkipped(s: string, at: nat, end: nat)
    requires SpacesAt(s, at, end) && (end < |s| ==> s[end] != ' ')
    ensures SkipSpaces(s, at) == end
    decreases end - at
  {
    if at < end {
      SpacesAreSkipped(s, at + 1, end);
    }
  }

  lemma {:induction false} ReadableIsRead(read: NumberReader, s: string, at: nat, acc: seq<int32>, values: seq<int32>, end: nat, quote: nat)
    requires ReadableAt(read, s, at, values, end) && SpacesAt(s, end, quote) && quote < |s| && s[quote] == '"'
    requires at <= |s| && |acc| + |values| <= MAX_NUMBERS
    ensures NeoNumbers(read, s, SkipSpaces(s, at), acc) == Some((quote, acc + values))
    decreases |values|
  {
    if values == [] {
      SpacesAreSkipped(s, at, quote);
      assert acc + values == acc;
    } else {
      var (v, e) := read(s, SkipSpaces(s, at), |s|);
      assert acc + [values[0]] + values[1..] == acc + values;
      ReadableIsRead(read, s, e + 1, acc + [values[0]], values[1..], end, quote);
      assert SkipSpaces(s, e) == SkipSpaces(s, e + 1);
    }
  }

  lemma {:induction false} ReadIsReadable(read: NumberReader, s: string, at: nat, acc: seq<int32>) returns (values: seq<int32>, end: nat)
    requires at <= |s| && |acc| <= MAX_NUMBERS
    requires var r := NeoNumbers(read, s, SkipSpaces(s, at), acc); r.Some? && r.value.0 < |s|
    ensures var (quote, numbers) := NeoNumbers(read, s, SkipSpaces(s, at), acc).value;
            && ReadableAt(read, s, at, values, end) && SpacesAt(s, end, quote) && s[quote] == '"'
            && numbers == acc + values && |numbers| <= MAX_NUMBERS
    decreases |s| - at
  {
    var pos := SkipSpaces(s, at);
    if s[pos] == '"' {
      SkippedAre(s, at);
      values, end := [], at;
      assert acc + values == acc;
    } else {
      var (v, e) := read(s, pos, |s|);
      assert SkipSpaces(s, |s|) == |s|;
      assert SkipSpaces(s, e) == SkipSpaces(s, e + 1);
      var rest;
      rest, end := ReadIsReadable(read, s, e + 1, acc + [v]);
      values := [v] + rest;
      assert acc + [v] + rest == acc + values;
    }
  }

  // ----- numbers: what strtol reads -----

  lemma {:induction false} RunOfDigits(s: string, from: nat, e: nat)
    requires from <= e <= |s| && (forall k | from <= k < e :: IsDigit(s[k])) && (e < |s| ==> !IsDigit(s[e]))
    ensures DigitsEnd(s, from, |s|) == e
    decreases e - from
  {
    if from < e {
      RunOfDigits(s, from + 1, e);
    }
  }

  lemma {:induction false} BlanksSkipped(s: string, pos: nat, start: nat)
    requires pos <= start < |s| && (forall k | pos <= k < start :: IsSpace(s[k])) && !IsSpace(s[start])
    ensures SkipBlank(s, pos, |s|) == start
    decreases start - pos
  {
    if pos < start {
      BlanksSkipped(s, pos + 1, start);
    }
  }

  lemma {:induction false} SkipsToBlank(s: string, pos: nat)
    requires pos <= |s|
    ensures var start := SkipBlank(s, pos, |s|);
            (forall k | pos <= k < start :: IsSpace(s[k])) && (start < |s| ==> !IsSpace(s[start]))
    decreases |s| - pos
  {
    if pos < |s| && IsSpace(s[pos]) {
      SkipsToBlank(s, pos + 1);
    }
  }

  lemma {:induction false} DigitsUpTo(s: string, from: nat)
    requires from <= |s|
    ensures forall k | from <= k < DigitsEnd(s, from, |s|) :: IsDigit(s[k])
    decreases |s| - from
  {
    if from < |s| && IsDigit(s[from]) {
      DigitsUpTo(s, from + 1);
    }
  }

  lemma {:induction false} SameDigits(s: string, from: nat, digits: string, n: nat)
    requires n <= |digits| && Stands(s, from, digits)
    ensures DigitsValue(s, from, from + n) == DigitsValue(digits, 0, n)
    decreases n
  {
    if n > 0 {
      assert s[from + (n - 1)] == digits[n - 1];
      SameDigits(s, from, digits, n - 1);
    }
  }

  lemma ItemCharacters(s: string, at: nat, x: Item, start: nat, from: nat, end: nat)
    requires PartsAt(s, at, x, start, from, end) && GoodItem(x)
    ensures forall k | at <= k < start :: IsSpace(s[k])
    ensures forall k | from <= k < end :: IsDigit(s[k])
    ensures from == start || (from == start + 1 && (s[start] == '-' || s[start] == '+') && x.sign == [s[start]])
    ensures !IsSpace(s[start]) && s[start] != '"'
  {
    forall k | at <= k < start ensures IsSpace(s[k]) {
      assert s[at + (k - at)] == x.blanks[k - at];
    }
    forall k | from <= k < end ensures IsDigit(s[k]) {
      assert s[from + (k - from)] == x.digits[k - from];
    }
    if from > start {
      assert s[start + 0] == x.sign[0];
    }
  }

  /** From any of its blanks on, `strtol` reads the item. */
  lemma ItemReads(s: string, at: nat, x: Item, start: nat, from: nat, end: nat, pos: nat)
    requires PartsAt(s, at, x, start, from, end) && GoodItem(x) && at <= pos <= start
    ensures Strtol(s, pos, |s|) == (ValueOfItem(x), end)
  {
    ItemCharacters(s, at, x, start, from, end);
    BlanksSkipped(s, pos, start);
    RunOfDigits(s, from, end);
    SameDigits(s, from, x.digits, |x.digits|);
  }

  lemma {:induction false} SkipsNoFurther(s: string, at: nat, start: nat)
    requires at <= start < |s| && s[start] != ' '
    ensures SkipSpaces(s, at) <= start
    decreases start - at
  {
    if at < start && s[at] == ' ' {
      SkipsNoFurther(s, at + 1, start);
    }
  }

  lemma ItemStarts(s: string, at: nat, x: Item, start: nat, from: nat, end: nat)
    requires PartsAt(s, at, x, start, from, end) && GoodItem(x)
    ensures at <= SkipSpaces(s, at) <= start && s[SkipSpaces(s, at)] != '"' && s[SkipSpaces(s, at)] != ' '
  {
    ItemCharacters(s, at, x, start, from, end);
    SkipsNoFurther(s, at, start);
    SkippedToNonBlank(s, at);
  }

  /** One item, as the number loop meets it. */
  ghost predicate ReadsItem(read: NumberReader, s: string, at: nat, x: Item) {
    Stands(s, at, ShowItem(x)) && GoodItem(x) ==>
      var pos, end := SkipSpaces(s, at), at + |ShowItem(x)| - 1;
      && pos < end < |s| && s[pos] != '"' && s[end] == ' ' && read(s, pos, |s|) == (ValueOfItem(x), end)
  }

  lemma StrtolReadsItem(s: string, at: nat, x: Item)
    requires at <= |s|
    ensures ReadsItem(Strtol, s, at, x)
  {
    if Stands(s, at, ShowItem(x)) && GoodItem(x) {
      var start := at + |x.blanks|;
      var from := start + |x.sign|;
      var end := from + |x.digits|;
      ItemParts(s, at, x, start, from, end);
      ItemStarts(s, at, x, start, from, end);
      ItemReads(s, at, x, start, from, end, SkipSpaces(s, at));
    }
  }

  lemma {:induction false} ItemsAreReadable(read: NumberReader, s: string, at: nat, items: seq<Item>, end: nat)
    requires ItemsAt(s, at, items, end) && GoodItems(items) && at <= |s|
    requires forall k: nat, x: Item | k <= |s| :: ReadsItem(read, s, k, x)
    ensures ReadableAt(read, s, at, Values(items), end)
    decreases |items|
  {
    if items != [] {
      assert ReadsItem(read, s, at, items[0]);
      assert Values(items)[1..] == Values(items[1..]);
      ItemsAreReadable(read, s, at + |ShowItem(items[0])|, items[1..], end);
    }
  }

  lemma ShownItemsAreReadable(s: string, at: nat, items: seq<Item>, end: nat)
    requires ItemsAt(s, at, items, end) && GoodItems(items) && at <= |s|
    ensures ReadableAt(Strtol, s, at, Values(items), end)
  {
    forall k: nat, x: Item | k <= |s| ensures ReadsItem(Strtol, s, k, x) {
      StrtolReadsItem(s, k, x);
    }
    ItemsAreReadable(Strtol, s, at, items, end);
  }

  /** What `strtol` has read is an item. */
  lemma ReadIsItem(s: string, at: nat, v: int, e: nat) returns (x: Item)
    requires at <= |s| && Strtol(s, SkipSpaces(s, at), |s|) == (v, e) && SkipSpaces(s, at) < e < |s| && s[e] == ' ' && FitsInt32(v)
    ensures GoodItem(x) && ValueOfItem(x) == v && Stands(s, at, ShowItem(x)) && at + |ShowItem(x)| == e + 1
  {
    var pos := SkipSpaces(s, at);
    var start := SkipBlank(s, pos, |s|);
    var signed := start < |s| && (s[start] == '-' || s[start] == '+');
    var from := if signed then start + 1 else start;
    SkippedAre(s, at);
    SkipsToBlank(s, pos);
    DigitsUpTo(s, from);
    x := Item(s[at..start], s[start..from], s[from..e]);
    CutStands(s, at, start);
    CutStands(s, start, from);
    CutStands(s, from, e);
    SameDigits(s, from, x.digits, |x.digits|);
    ItemParts(s, at, x, start, from, e);
  }

  lemma {:induction false} ReadableIsItems(s: string, at: nat, values: seq<int32>, end: nat) returns (items: seq<Item>)
    requires ReadableAt(Strtol, s, at, values, end)
    ensures ItemsAt(s, at, items, end) && GoodItems(items) && Values(items) == values
    decreases |values|
  {
    if values == [] {
      items := [];
    } else {
      var (v, e) := Strtol(s, SkipSpaces(s, at), |s|);
      var x := ReadIsItem(s, at, v, e);
      var rest := ReadableIsItems(s, e + 1, values[1..], end);
      items := [x] + rest;
      assert items[1..] == rest;
    }
  }

  // ----- numbers: tokens of control blanks -----

  lemma {:induction false} TokenEndsAt(s: string, pos: nat, end: nat)
    requires pos <= end < |s| && s[end] == ' ' && forall k | pos <= k < end :: s[k] != ' '
    ensures TokenEnd(s, pos) == end
    decreases end - pos
  {
    if pos < end {
      TokenEndsAt(s, pos + 1, end);
    }
  }

  lemma {:induction false} TokenEndsBefore(s: string, pos: nat, k: nat)
    requires pos <= k < |s| && s[k] == ' '
    ensures TokenEnd(s, pos) <= k
    decreases k - pos
  {
    if pos < k && s[pos] != ' ' {
      TokenEndsBefore(s, pos + 1, k);
    }
  }

  lemma TightToken(s: string, at: nat, x: Item, start: nat, from: nat, end: nat)
    requires PartsAt(s, at, x, start, from, end) && GoodItem(x) && TightItem(x)
    ensures TokenEnd(s, SkipSpaces(s, at)) == end && !AllControl(s, SkipSpaces(s, at), end)
  {
    var pos := SkipSpaces(s, at);
    ItemCharacters(s, at, x, start, from, end);
    ItemStarts(s, at, x, start, from, end);
    forall k | pos <= k < end ensures s[k] != ' ' {
      if k < start {
        assert s[at + (k - at)] == x.blanks[k - at] && s[at + (pos - at)] == x.blanks[pos - at];
      }
    }
    TokenEndsAt(s, pos, end);
    assert IsDigit(s[end - 1]);
  }

  lemma LooseToken(s: string, at: nat, x: Item, start: nat, from: nat, end: nat)
    requires PartsAt(s, at, x, start, from, end) && GoodItem(x) && !TightItem(x)
    ensures HasControlToken(s, at)
  {
    var i, j :| 0 <= i < j < |x.blanks| && x.blanks[j] == ' ' && x.blanks[i] != ' ';
    ItemCharacters(s, at, x, start, from, end);
    ItemStarts(s, at, x, start, from, end);
    var pos := SkipSpaces(s, at);
    assert s[at + i] == x.blanks[i] && s[at + j] == x.blanks[j];
    SkipsNoFurther(s, at, at + i);
    TokenEndsBefore(s, pos, at + j);
    forall k | pos <= k < TokenEnd(s, pos) ensures IsControlBlank(s[k]) {
      TokenHasNoBlank(s, pos, k);
    }
  }

  lemma {:induction false} TightExactly(s: string, at: nat, items: seq<Item>, end: nat, quote: nat)
    requires ItemsAt(s, at, items, end) && GoodItems(items) && at <= |s|
    requires SpacesAt(s, end, quote) && quote < |s| && s[quote] == '"'
    ensures Tight(items) <==> !HasControlToken(s, at)
    decreases |items|
  {
    if items == [] {
      SpacesAreSkipped(s, at, quote);
    } else {
      var x := items[0];
      var start := at + |x.blanks|;
      var from := start + |x.sign|;
      var e := from + |x.digits|;
      ItemParts(s, at, x, start, from, e);
      if TightItem(x) {
        TightToken(s, at, x, start, from, e);
        ItemStarts(s, at, x, start, from, e);
        TightExactly(s, e + 1, items[1..], end, quote);
      } else {
        LooseToken(s, at, x, start, from, e);
      }
    }
  }

  // ----- the text -----

  lemma {:induction false} ShownTextIsRead(s: string, pos: nat, acc: string, text: string)
    requires Stands(s, pos, Escape(text) + "\"") && |acc| + |text| <= ESP_TEXT && pos <= |s|
    ensures EspText(s, pos, acc) == Some((pos + |Escape(text)| + 1, acc + text))
    decreases |text|
  {
    if text == "" {
      assert Escape(text) + "\"" == ['"'];
      OneStands(s, pos, '"');
      assert acc + text == acc;
    } else {
      var e := EscapeChar(text[0]);
      assert Escape(text) + "\"" == e + (Escape(text[1..]) + "\"");
      StandsJoined(s, pos, e, Escape(text[1..]) + "\"");
      assert s[pos + 0] == e[0] && (|e| == 2 ==> s[pos + 1] == e[1]);
      assert acc + [text[0]] + text[1..] == acc + text;
      ShownTextIsRead(s, pos + |e|, acc + [text[0]], text[1..]);
    }
  }

  lemma OneMoreShown(s: string, pos: nat, c: char, rest: string)
    requires Stands(s, pos, EscapeChar(c)) && Stands(s, pos + |EscapeChar(c)|, Escape(rest) + "\"")
    ensures Stands(s, pos, Escape([c] + rest) + "\"") && |Escape([c] + rest)| == |EscapeChar(c)| + |Escape(rest)|
  {
    assert ([c] + rest)[1..] == rest;
    assert Escape([c] + rest) + "\"" == EscapeChar(c) + (Escape(rest) + "\"");
    StandsJoined(s, pos, EscapeChar(c), Escape(rest) + "\"");
  }

  lemma {:induction false} ReadTextIsShown(s: string, pos: nat, acc: string) returns (text: string)
    requires pos <= |s| && EspText(s, pos, acc).Some?
    ensures var (end, all) := EspText(s, pos, acc).value;
            all == acc + text && Stands(s, pos, Escape(text) + "\"") && end == pos + |Escape(text)| + 1
    decreases |s| - pos
  {
    if s[pos] == '"' {
      text := "";
      OneStands(s, pos, '"');
      assert Escape(text) + "\"" == ['"'] && acc + text == acc;
    } else {
      var c := if s[pos] == '\\' then s[pos + 1] else s[pos];
      var e := EscapeChar(c);
      assert Stands(s, pos, e);
      var rest := ReadTextIsShown(s, pos + |e|, acc + [c]);
      text := [c] + rest;
      assert acc + [c] + rest == acc + text;
      OneMoreShown(s, pos, c, rest);
    }
  }

  // ----- whole bodies -----

  /** Where the parts of a body stand. */
  predicate BodyAt(s: string, b: Body, end: nat, quote: nat) {
    && ItemsAt(s, 0, b.items, end) && SpacesAt(s, end, quote) && quote == end + b.gap
    && quote < |s| && s[quote] == '"' && Stands(s, quote + 1, Escape(b.text) + "\"")
    && SpacesAt(s, quote + 1 + |Escape(b.text)| + 1, |s|)
    && |s| == quote + 1 + |Escape(b.text)| + 1 + b.tail
  }

  lemma RestStands(s: string, quote: nat, b: Body)
    ensures Stands(s, quote, ShowRest(b)) <==>
              && quote < |s| && s[quote] == '"' && Stands(s, quote + 1, Escape(b.text) + "\"")
              && SpacesAt(s, quote + 1 + |Escape(b.text)| + 1, quote + 1 + |Escape(b.text)| + 1 + b.tail)
  {
    var inner := Escape(b.text) + "\"";
    assert ShowRest(b) == ['"'] + (inner + Spaces(b.tail));
    StandsJoined(s, quote, ['"'], inner + Spaces(b.tail));
    OneStands(s, quote, '"');
    StandsJoined(s, quote + 1, inner, Spaces(b.tail));
    SpacesStand(s, quote + 1 + |inner|, b.tail);
  }

  lemma ShowStands(s: string, b: Body, end: nat, quote: nat)
    requires end == |ShowItems(b.items)| && quote == end + b.gap
    ensures s == Show(b) <==> BodyAt(s, b, end, quote)
  {
    var items, rest := ShowItems(b.items), ShowRest(b);
    assert |Show(b)| == end + b.gap + |rest| && |rest| == 1 + |Escape(b.text)| + 1 + b.tail;
    StandsJoined(s, 0, items + Spaces(b.gap), rest);
    StandsJoined(s, 0, items, Spaces(b.gap));
    ItemsStand(s, 0, b.items, end);
    SpacesStand(s, end, b.gap);
    RestStands(s, quote, b);
  }

  lemma ShownRestIsRead(s: string, b: Body, end: nat, quote: nat)
    requires WellFormed(b) && BodyAt(s, b, end, quote)
    ensures EspRest(s, quote, Values(b.items)) == Some(Meaning(b))
  {
    ShownTextIsRead(s, quote + 1, "", b.text);
    assert "" + b.text == b.text;
    SpacesAreSkipped(s, quote + 1 + |Escape(b.text)| + 1, |s|);
  }

  lemma ShownNumbersAreRead(s: string, b: Body, end: nat, quote: nat)
    requires WellFormed(b) && BodyAt(s, b, end, quote)
    ensures NeoNumbers(Strtol, s, SkipSpaces(s, 0), []) == Some((quote, Values(b.items)))
  {
    ShownItemsAreReadable(s, 0, b.items, end);
    ReadableIsRead(Strtol, s, 0, [], Values(b.items), end, quote);
    assert [] + Values(b.items) == Values(b.items);
  }

  /** Of a well-formed body Neo reads the meaning if it can take the text, and the ESP parser
      if no ' ' stands between a control blank and the number behind it. */
  lemma BothRead(b: Body)
    requires WellFormed(b)
    ensures NeoParse(Show(b)) == if NeoTakes(b.text) then Some(Meaning(b)) else None
    ensures EspParse(Show(b)) == if Tight(b.items) then Some(Meaning(b)) else None
  {
    var s, end := Show(b), |ShowItems(b.items)|;
    var quote := end + b.gap;
    ShowStands(s, b, end, quote);
    ShownNumbersAreRead(s, b, end, quote);
    ShownRestIsRead(s, b, end, quote);
    RestsCompare(s, quote, Values(b.items));
    TightExactly(s, 0, b.items, end, quote);
    EspFollows(s, quote, Values(b.items));
  }

  lemma EspFollows(s: string, quote: nat, numbers: seq<int32>)
    requires quote <= |s| && NeoNumbers(Strtol, s, SkipSpaces(s, 0), []) == Some((quote, numbers))
    ensures EspParse(s) == if HasControlToken(s, 0) then None else EspRest(s, quote, numbers)
  {
    StrtolIsTokenWise(s);
    if HasControlToken(s, 0) {
      ControlTokenIsRefused(Strtol, s, 0, []);
    } else {
      NumbersAgree(Strtol, s, 0, []);
    }
  }

  lemma ReadNumbersAreShown(s: string, quote: nat, numbers: seq<int32>) returns (items: seq<Item>, end: nat)
    requires quote < |s| && NeoNumbers(Strtol, s, SkipSpaces(s, 0), []) == Some((quote, numbers))
    ensures GoodItems(items) && |items| <= MAX_NUMBERS && end == |ShowItems(items)|
    ensures ItemsAt(s, 0, items, end) && SpacesAt(s, end, quote) && s[quote] == '"'
  {
    var values;
    values, end := ReadIsReadable(Strtol, s, 0, []);
    assert [] + values == values;
    items := ReadableIsItems(s, 0, values, end);
    ItemsStand(s, 0, items, end);
  }

  lemma ReadRestIsShown(s: string, quote: nat, numbers: seq<int32>) returns (text: string, stop: nat)
    requires quote <= |s| && EspRest(s, quote, numbers).Some?
    ensures quote < |s| && Stands(s, quote + 1, Escape(text) + "\"") && |text| <= ESP_TEXT
    ensures stop == quote + 1 + |Escape(text)| + 1 && SpacesAt(s, stop, |s|)
  {
    text := ReadTextIsShown(s, quote + 1, "");
    assert "" + text == text;
    stop := quote + 1 + |Escape(text)| + 1;
    SkippedAre(s, stop);
    TextFits(s, quote + 1, "");
  }

  lemma {:induction false} TextFits(s: string, pos: nat, acc: string)
    requires pos <= |s| && |acc| <= ESP_TEXT
    ensures EspText(s, pos, acc).Some? ==> |EspText(s, pos, acc).value.1| <= ESP_TEXT
    decreases |s| - pos
  {
    if pos < |s| && s[pos] != '"' && |acc| < ESP_TEXT {
      if s[pos] != '\\' {
        TextFits(s, pos + 1, acc + [s[pos]]);
      } else if pos + 1 < |s| {
        TextFits(s, pos + 2, acc + [s[pos + 1]]);
      }
    }
  }

  /** A body whose numbers Neo takes, and which the ESP parser takes from the quote on, is
      well-formed. */
  lemma ReadIsShown(s: string, quote: nat, numbers: seq<int32>) returns (b: Body)
    requires quote <= |s| && NeoNumbers(Strtol, s, SkipSpaces(s, 0), []) == Some((quote, numbers))
    requires EspRest(s, quote, numbers).Some?
    ensures WellFormed(b) && Show(b) == s
  {
    var text, stop := ReadRestIsShown(s, quote, numbers);
    var items, end := ReadNumbersAreShown(s, quote, numbers);
    b := Body(items, quote - end, text, |s| - stop);
    ShowStands(s, b, end, quote);
  }

  lemma AcceptedIsShown(s: string) returns (b: Body)
    requires NeoParse(s).Some? || EspParse(s).Some?
    ensures WellFormed(b) && Show(b) == s
  {
    ParsersCompare(s);
    StrtolIsTokenWise(s);
    if EspParse(s).Some? {
      NumbersAgree(Strtol, s, 0, []);
      var numbers := EspNumbers(Strtol, s, 0, []).value;
      b := ReadIsShown(s, numbers.0, numbers.1);
    } else {
      var numbers := NeoNumbers(Strtol, s, SkipSpaces(s, 0), []).value;
      RestsCompare(s, numbers.0, numbers.1);
      b := ReadIsShown(s, numbers.0, numbers.1);
    }
  }

  /** Exactly what Neo accepts, and what it makes of it. */
  lemma NeoReadsExactly(s: string, a: Arguments)
    ensures NeoParse(s) == Some(a) <==>
              exists b: Body :: WellFormed(b) && Show(b) == s && NeoTakes(b.text) && Meaning(b) == a
  {
    if NeoParse(s) == Some(a) {
      var b := AcceptedIsShown(s);
      BothRead(b);
    }
    forall b: Body | WellFormed(b) && Show(b) == s && NeoTakes(b.text) && Meaning(b) == a
      ensures NeoParse(s) == Some(a)
    {
      BothRead(b);
    }
  }

  /** Exactly what the ESP parser accepts, and what it makes of it. */
  lemma EspReadsExactly(s: string, a: Arguments)
    ensures EspParse(s) == Some(a) <==>
              exists b: Body :: WellFormed(b) && Show(b) == s && Tight(b.items) && Meaning(b) == a
  {
    if EspParse(s) == Some(a) {
      var b := AcceptedIsShown(s);
      BothRead(b);
    }
    forall b: Body | WellFormed(b) && Show(b) == s && Tight(b.items) && Meaning(b) == a
      ensures EspParse(s) == Some(a)
    {
      BothRead(b);
    }
  }

  /** Exactly which bodies the parsers read differently, as a condition on the body alone: it is
      well-formed, and either Neo can take the text but a ' ' stands between a control blank and
      a number, or none does but Neo cannot take the text. Texts of more than 191 characters
      aside, that is a text with a character that is not printable. */
  lemma ParsersPartExactly(s: string)
    ensures NeoParse(s) != EspParse(s) <==>
              exists b: Body :: WellFormed(b) && Show(b) == s && Tight(b.items) != NeoTakes(b.text)
    ensures NeoParse(s) != EspShort(s) <==>
              exists b: Body :: WellFormed(b) && Show(b) == s && |b.text| <= NEO_TEXT && Tight(b.items) != AllPrintable(b.text)
  {
    if NeoParse(s).Some? || EspParse(s).Some? {
      var b := AcceptedIsShown(s);
      BothRead(b);
    }
    forall b: Body | WellFormed(b) && Show(b) == s
      ensures NeoParse(s) == if NeoTakes(b.text) then Some(Meaning(b)) else None
      ensures EspParse(s) == if Tight(b.items) then Some(Meaning(b)) else None
    {
      BothRead(b);
    }
  }

  // ----- printable bodies -----

  lemma {:induction false} EscapedIsPrintable(text: string)
    requires AllPrintable(Escape(text))
    ensures AllPrintable(text)
  {
    if text != "" {
      var e, rest := EscapeChar(text[0]), Escape(text[1..]);
      assert Printable((e + rest)[|e| - 1]);
      forall k | 0 <= k < |rest| ensures Printable(rest[k]) {
        assert (e + rest)[|e| + k] == rest[k];
      }
      EscapedIsPrintable(text[1..]);
    }
  }

  lemma PrintableText(s: string, b: Body)
    requires AllPrintable(s) && s == Show(b)
    ensures AllPrintable(b.text)
  {
    var end := |ShowItems(b.items)|;
    var quote := end + b.gap;
    ShowStands(s, b, end, quote);
    StandsJoined(s, quote + 1, Escape(b.text), "\"");
    forall k | 0 <= k < |Escape(b.text)| ensures Printable(Escape(b.text)[k]) {
      assert s[quote + 1 + k] == Escape(b.text)[k];
    }
    EscapedIsPrintable(b.text);
  }

  /** On every printable body, well-formed or not, they agree. */
  lemma ParsersAgree(s: string)
    requires AllPrintable(s)
    ensures NeoParse(s) == EspShort(s)
  {
    PrintableHasNoControl(s, 0);
    ParsersCompare(s);
    if EspParse(s).Some? {
      var b := AcceptedIsShown(s);
      BothRead(b);
      PrintableText(s, b);
    }
  }

  // ----- what is written is read back -----

  /** A number as Iris writes it. */
  function NumeralOf(v: int, blanks: string): Item {
    Item(blanks, if v < 0 then "-" else "", Decimal(if v < 0 then -v else v))
  }

  /** The numerals that Iris writes, with `blanks` before the first. */
  function Written(numbers: seq<int32>, blanks: string): seq<Item> {
    if numbers == [] then [] else [NumeralOf(numbers[0], blanks)] + Written(numbers[1..], "")
  }

  lemma {:induction false} DecimalIsNumeral(n: nat)
    ensures (forall k | 0 <= k < |Decimal(n)| :: IsDigit(Decimal(n)[k])) && DigitsValue(Decimal(n), 0, |Decimal(n)|) == n
  {
    var d := Decimal(n);
    assert DigitsValue(d, 0, 0) == 0;
    if n >= 10 {
      var front := Decimal(n / 10);
      DecimalIsNumeral(n / 10);
      SameDigits(d, 0, front, |front|);
    }
  }

  lemma NumeralIsGood(v: int, blanks: string)
    requires FitsInt32(v) && (blanks == "" || blanks == " ")
    ensures GoodItem(NumeralOf(v, blanks)) && ValueOfItem(NumeralOf(v, blanks)) == v && TightItem(NumeralOf(v, blanks))
  {
    DecimalIsNumeral(if v < 0 then -v else v);
  }

  lemma {:induction false} WrittenIsGood(numbers: seq<int32>, blanks: string)
    requires blanks == "" || blanks == " "
    ensures GoodItems(Written(numbers, blanks)) && Tight(Written(numbers, blanks)) && Values(Written(numbers, blanks)) == numbers
    decreases |numbers|
  {
    if numbers != [] {
      NumeralIsGood(numbers[0], blanks);
      WrittenIsGood(numbers[1..], "");
    }
  }

  lemma NumeralIsSigned(v: int, blanks: string)
    ensures ShowItem(NumeralOf(v, blanks)) == blanks + Signed(v) + " "
  {
    var x := NumeralOf(v, blanks);
    assert x.sign + x.digits == Signed(v);
    assert x.blanks + x.sign + x.digits == x.blanks + (x.sign + x.digits);
  }

  lemma Regroup(w: string, x: string, y: string, z: string)
    ensures w + x + y + z == w + (x + y + z)
  {
  }

  lemma {:induction false} WrittenIsRendered(numbers: seq<int32>, blanks: string)
    requires numbers != []
    ensures ShowItems(Written(numbers, blanks)) == blanks + RenderNumbers(numbers)
    decreases |numbers|
  {
    var items, rest := Written(numbers, blanks), Written(numbers[1..], "");
    assert items[1..] == rest;
    NumeralIsSigned(numbers[0], blanks);
    if numbers[1..] != [] {
      WrittenIsRendered(numbers[1..], "");
      assert "" + RenderNumbers(numbers[1..]) == RenderNumbers(numbers[1..]);
    }
    Regroup(blanks, Signed(numbers[0]), " ", RenderNumbers(numbers[1..]));
  }

  function WrittenBody(a: Arguments): Body {
    Body(Written(a.numbers, " "), if a.numbers == [] then 1 else 0, a.text, 0)
  }

  lemma RenderIsShown(a: Arguments)
    ensures Render(a) == Show(WrittenBody(a))
  {
    TwoPassesEscape(a.text);
    if a.numbers == [] {
      Tail(" ", Escape(a.text));
    } else {
      WrittenIsRendered(a.numbers, " ");
      Tail(" " + RenderNumbers(a.numbers), Escape(a.text));
    }
    assert " " + RenderNumbers([]) == " " && [] + Spaces(1) == " ";
  }

  lemma Tail(x: string, y: string)
    ensures x + "\"" + y + "\"" == x + ("\"" + y + "\"" + Spaces(0)) == x + Spaces(0) + ("\"" + y + "\"" + Spaces(0))
  {
    assert Spaces(0) == "";
    assert "\"" + y + "\"" + Spaces(0) == "\"" + y + "\"" && x + Spaces(0) == x;
    Regroup(x, "\"", y, "\"");
  }

  /** Every argument list that fits, whatever its characters, is read back by the ESP parser as
      Iris writes it, and by Neo exactly if it can take the text. */
  lemma BothParsersReadBack(a: Arguments)
    requires |a.numbers| <= MAX_NUMBERS && |a.text| <= ESP_TEXT
    ensures EspParse(Render(a)) == Some(a)
    ensures NeoParse(Render(a)) == if NeoTakes(a.text) then Some(a) else None
  {
    RenderIsShown(a);
    WrittenIsGood(a.numbers, " ");
    BothRead(WrittenBody(a));
  }
}
