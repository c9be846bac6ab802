/** CALL_MIXED bodies: up to eight 32-bit numbers and one quoted ASCII text. Iris writes them
    by two replace passes; Neo and the ESP dispatcher read them with two different parsers. */
module MixedCall {
  import opened Wrappers

  type int32 = x: int | -0x8000_0000 <= x < 0x8000_0000

  const MAX_NUMBERS: nat := 8
  const NEO_TEXT: nat := 191
  const ESP_TEXT: nat := 255

  datatype Arguments = Arguments(numbers: seq<int32>, text: string)

  predicate Printable(c: char) { ' ' <= c <= '~' }
  predicate AllPrintable(s: string) { forall k | 0 <= k < |s| :: Printable(s[k]) }

  // ----- writing -----

  /** Arduino's `String::replace` of one character. */
  function ReplaceChar(s: string, c: char, sub: string): string {
    if s == [] then [] else (if s[0] == c then sub else [s[0]]) + ReplaceChar(s[1..], c, sub)
  }

  /** The two passes of `nativeTextCall`. */
  function EscapeInTwoPasses(text: string): string {
    ReplaceChar(ReplaceChar(text, '\\', "\\\\"), '"', "\\\"")
  }

  function EscapeChar(c: char): string {
    if c == '\\' then "\\\\" else if c == '"' then "\\\"" else [c]
  }

  function Escape(text: string): string {
    if text == [] then [] else EscapeChar(text[0]) + Escape(text[1..])
  }

  function Digit(d: nat): char
    requires d < 10
  {
    '0' + d as char
  }

  function Decimal(n: nat): (s: string)
    ensures |s| >= 1
  {
    if n < 10 then [Digit(n)] else Decimal(n / 10) + [Digit(n % 10)]
  }

  function Signed(v: int): string {
    if v < 0 then "-" + Decimal(-v) else Decimal(v)
  }

  function RenderNumbers(numbers: seq<int32>): string {
    if numbers == [] then [] else Signed(numbers[0]) + " " + RenderNumbers(numbers[1..])
  }

  /** What follows the function name in a CALL_MIXED request. */
  function Render(a: Arguments): string {
    " " + RenderNumbers(a.numbers) + "\"" + EscapeInTwoPasses(a.text) + "\""
  }

  lemma {:induction false} ReplaceJoins(s: string, t: string, c: char, sub: string)
    ensures ReplaceChar(s + t, c, sub) == ReplaceChar(s, c, sub) + ReplaceChar(t, c, sub)
  {
    if s == [] {
      assert s + t == t;
    } else {
      ReplaceJoins(s[1..], t, c, sub);
      assert (s + t)[1..] == s[1..] + t;
      Joined(if s[0] == c then sub else [s[0]], ReplaceChar(s[1..], c, sub), ReplaceChar(t, c, sub));
    }
  }

  lemma Joined(x: string, y: string, z: string)
    ensures x + (y + z) == x + y + z
  {
  }

  /** The backslashes that the second pass adds are not escaped again, and those of the
      first pass are left alone. */
  lemma {:induction false} TwoPassesEscape(text: string)
    ensures EscapeInTwoPasses(text) == Escape(text)
  {
    if text != [] {
      var first := if text[0] == '\\' then "\\\\" else [text[0]];
      TwoPassesEscape(text[1..]);
      ReplaceJoins(first, ReplaceChar(text[1..], '\\', "\\\\"), '"', "\\\"");
      assert ReplaceChar(first, '"', "\\\"") == EscapeChar(text[0]) by {
        if text[0] == '\\' {
          assert first[1..][1..] == [] && first[1..] == "\\";
        } else {
          assert first[1..] == [];
        }
      }
    }
  }

  // ----- reading numbers: strtol in base 10 -----

  predicate IsDigit(c: char) { '0' <= c <= '9' }

  function ValueOf(c: char): nat {
    if IsDigit(c) then c as nat - '0' as nat else 0
  }

  predicate IsSpace(c: char) { c == ' ' || '\t' <= c <= '\r' }

  function SkipBlank(s: string, pos: nat, limit: nat): (r: nat)
    requires pos <= limit <= |s|
    ensures pos <= r <= limit
    decreases limit - pos
  {
    if pos < limit && IsSpace(s[pos]) then SkipBlank(s, pos + 1, limit) else pos
  }

  function DigitsEnd(s: string, pos: nat, limit: nat): (r: nat)
    requires pos <= limit <= |s|
    ensures pos <= r <= limit
    decreases limit - pos
  {
    if pos < limit && IsDigit(s[pos]) then DigitsEnd(s, pos + 1, limit) else pos
  }

  function DigitsValue(s: string, from: nat, end: nat): nat
    requires from <= end <= |s|
    decreases end
  {
    if from == end then 0 else 10 * DigitsValue(s, from, end - 1) + ValueOf(s[end - 1])
  }

  /** A way to read the number at a position of the string that stops at a limit: its value
      and its end, which is the position itself when there is none. */
  type NumberReader = (string, nat, nat) -> (int, nat)

  /** `strtol` in base 10: blanks, a sign, digits. */
  function Strtol(s: string, pos: nat, limit: nat): (int, nat) {
    if !(pos <= limit <= |s|) then (0, pos)
    else
      var start := SkipBlank(s, pos, limit);
      var signed := start < limit && (s[start] == '-' || s[start] == '+');
      var from := if signed then start + 1 else start;
      var end := DigitsEnd(s, from, limit);
      var magnitude: int := DigitsValue(s, from, end);
      if end == from then (0, pos)
      else (if signed && s[start] == '-' then -magnitude else magnitude, end)
  }

  predicate FitsInt32(v: int) { -0x8000_0000 <= v < 0x8000_0000 }

  function SkipSpaces(s: string, pos: nat): (r: nat)
    requires pos <= |s|
    ensures pos <= r <= |s|
    decreases |s| - pos
  {
    if pos < |s| && s[pos] == ' ' then SkipSpaces(s, pos + 1) else pos
  }

  // ----- Neo's parser -----

  /** The number loop of `noob_native_parse`; `pos` is past blanks. */
  function NeoNumbers(read: NumberReader, s: string, pos: nat, acc: seq<int32>): (r: Option<(nat, seq<int32>)>)
    requires pos <= |s|
    ensures r.Some? ==> pos <= r.value.0 <= |s|
    decreases |s| - pos
  {
    if pos == |s| || s[pos] == '"' then Some((pos, acc))
    else if |acc| == MAX_NUMBERS then None
    else
      var (v, end) := read(s, pos, |s|);
      if !(pos < end <= |s|) || !FitsInt32(v) || (end < |s| && s[end] != ' ') then None
      else NeoNumbers(read, s, SkipSpaces(s, end), acc + [v])
  }

  /** The text loop; `pos` is past the opening quote, the result past the closing one. */
  function NeoText(s: string, pos: nat, acc: string): (r: Option<(nat, string)>)
    requires pos <= |s|
    ensures r.Some? ==> pos <= r.value.0 <= |s|
    decreases |s| - pos
  {
    if pos == |s| then None
    else if s[pos] == '"' then Some((pos + 1, acc))
    else if s[pos] == '\\' then
      if pos + 1 == |s| || (s[pos + 1] != '\\' && s[pos + 1] != '"') || |acc| + 1 > NEO_TEXT then None
      else NeoText(s, pos + 2, acc + [s[pos + 1]])
    else if !Printable(s[pos]) || |acc| + 1 > NEO_TEXT then None
    else NeoText(s, pos + 1, acc + [s[pos]])
  }

  /** After the numbers: a quoted text, and nothing but blanks behind it. */
  function NeoRest(s: string, pos: nat, numbers: seq<int32>): Option<Arguments>
    requires pos <= |s|
  {
    if pos == |s| then None else
    var text := NeoText(s, pos + 1, "");
    if text.None? then None else
    var (end, t) := text.value;
    if SkipSpaces(s, end) != |s| then None else Some(Arguments(numbers, t))
  }

  function NeoParse(s: string): Option<Arguments> {
    var numbers := NeoNumbers(Strtol, s, SkipSpaces(s, 0), []);
    if numbers.None? then None else NeoRest(s, numbers.value.0, numbers.value.1)
  }

  // ----- the ESP dispatcher's parser -----

  /** End of the token that starts at `pos`. */
  function TokenEnd(s: string, pos: nat): (r: nat)
    requires pos <= |s|
    ensures pos <= r <= |s|
    decreases |s| - pos
  {
    if pos < |s| && s[pos] != ' ' then TokenEnd(s, pos + 1) else pos
  }

  function EspNumbers(read: NumberReader, s: string, at: nat, acc: seq<int32>): (r: Option<(nat, seq<int32>)>)
    requires at <= |s|
    ensures r.Some? ==> at <= r.value.0 <= |s|
    decreases |s| - at
  {
    var pos := SkipSpaces(s, at);
    if pos == |s| || s[pos] == '"' then Some((pos, acc))
    else
      var end := TokenEnd(s, pos);
      var (v, stop) := read(s, pos, end);
      if |acc| >= MAX_NUMBERS || stop == pos || stop != end || !FitsInt32(v) then None
      else EspNumbers(read, s, end, acc + [v])
  }

  function EspText(s: string, pos: nat, acc: string): (r: Option<(nat, string)>)
    requires pos <= |s|
    ensures r.Some? ==> pos <= r.value.0 <= |s|
    decreases |s| - pos
  {
    if pos == |s| then None
    else if s[pos] == '"' then Some((pos + 1, acc))
    else if s[pos] == '\\' then
      if pos + 1 == |s| || (s[pos + 1] != '"' && s[pos + 1] != '\\') || |acc| + 1 > ESP_TEXT then None
      else EspText(s, pos + 2, acc + [s[pos + 1]])
    else if |acc| + 1 > ESP_TEXT then None
    else EspText(s, pos + 1, acc + [s[pos]])
  }

  /** After the numbers: a quoted text, and nothing but blanks behind it. */
  function EspRest(s: string, pos: nat, numbers: seq<int32>): Option<Arguments>
    requires pos <= |s|
  {
    if pos == |s| then None else
    var text := EspText(s, pos + 1, "");
    if text.None? then None else
    var (end, t) := text.value;
    if SkipSpaces(s, end) != |s| then None else Some(Arguments(numbers, t))
  }

  function EspParse(s: string): Option<Arguments> {
    var numbers := EspNumbers(Strtol, s, 0, []);
    if numbers.None? then None else EspRest(s, numbers.value.0, numbers.value.1)
  }
}
