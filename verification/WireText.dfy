/** The text of a VM_READ reply and of the encoded file name: `key=value` fields and hex. */
module WireText {
  import opened Wrappers
  import MC = MixedCall
  import MG = MixedCallGrammar

  type byte = x: int | 0 <= x < 0x100

  // ----- hex -----

  function HexDigit(n: nat): (c: char)
    requires n < 16
  {
    if n < 10 then '0' + n as char else 'a' + (n - 10) as char
  }

  function Hex(bytes: seq<byte>): (s: string)
    ensures |s| == 2 * |bytes|
  {
    if bytes == [] then [] else [HexDigit(bytes[0] / 16), HexDigit(bytes[0] % 16)] + Hex(bytes[1..])
  }

  /** `nibble` of Iris and the inner loop of Neo's `unhex`; -1 for any other character. */
  function Nibble(c: char): (n: int)
    ensures -1 <= n < 16
  {
    if '0' <= c <= '9' then c as int - '0' as int
    else if 'a' <= c <= 'f' then c as int - 'a' as int + 10
    else if 'A' <= c <= 'F' then c as int - 'A' as int + 10
    else -1
  }

  /** Pairs of hex digits; nothing when the length is odd or a character is no digit. */
  function Unhex(s: string): (r: Option<seq<byte>>)
    ensures r.Some? ==> 2 * |r.value| == |s|
  {
    if s == [] then Some([])
    else if |s| == 1 || Nibble(s[0]) < 0 || Nibble(s[1]) < 0 then None
    else
      var rest := Unhex(s[2..]);
      if rest.None? then None else Some([Nibble(s[0]) * 16 + Nibble(s[1])] + rest.value)
  }

  lemma {:induction false} HexRoundTrip(bytes: seq<byte>)
    ensures Unhex(Hex(bytes)) == Some(bytes)
    ensures forall k | 0 <= k < |Hex(bytes)| :: Hex(bytes)[k] != ' '
  {
    if bytes != [] {
      var high, low, rest := bytes[0] / 16, bytes[0] % 16, Hex(bytes[1..]);
      var s := [HexDigit(high), HexDigit(low)] + rest;
      HexRoundTrip(bytes[1..]);
      assert s[2..] == rest;
      assert Unhex(s) == Some([high * 16 + low] + bytes[1..]);
      assert [bytes[0]] + bytes[1..] == bytes;
    }
  }

  /** Two lower-case digits for each byte, the more significant one first. */
  lemma {:induction false} HexDigitsStand(bytes: seq<byte>, i: nat)
    requires i < |bytes|
    ensures Hex(bytes)[2 * i] == "0123456789abcdef"[bytes[i] / 16] && Hex(bytes)[2 * i + 1] == "0123456789abcdef"[bytes[i] % 16]
    decreases i
  {
    if i > 0 {
      HexDigitsStand(bytes[1..], i - 1);
    } else {
      DigitStands(bytes[0] / 16);
      DigitStands(bytes[0] % 16);
    }
  }

  lemma DigitStands(n: nat)
    requires n < 16
    ensures HexDigit(n) == "0123456789abcdef"[n]
  {
  }

  lemma UnhexStep(data: string, i: nat)
    requires i + 1 < |data|
    ensures var high, low := Nibble(data[i]), Nibble(data[i + 1]);
            var here, next := Unhex(data[i..]), Unhex(data[i + 2..]);
            if high < 0 || low < 0 then here == None
            else here.Some? == next.Some? && (here.Some? ==> here.value == [high * 16 + low] + next.value)
  {
    assert data[i..][2..] == data[i + 2..];
  }

  ghost predicate Continues(whole: Option<seq<byte>>, done: seq<byte>, rest: Option<seq<byte>>) {
    whole.Some? == rest.Some? && (whole.Some? ==> whole.value == done + rest.value)
  }

  lemma OneByteOn(whole: Option<seq<byte>>, done: seq<byte>, rest: Option<seq<byte>>, next: Option<seq<byte>>, b: byte)
    requires Continues(whole, done, rest)
    requires rest.Some? == next.Some? && (rest.Some? ==> rest.value == [b] + next.value)
    ensures Continues(whole, done + [b], next)
  {
  }

  // ----- the encoded file name -----

  predicate IsBytes(name: string) {
    forall k | 0 <= k < |name| :: name[k] as int < 0x100
  }

  function BytesOf(name: string): (r: seq<byte>)
    ensures |r| == |name|
  {
    seq(|name|, i requires 0 <= i < |name| => name[i] as int % 0x100)
  }

  predicate AllPrintable(bytes: seq<byte>) {
    forall k | 0 <= k < |bytes| :: 32 <= bytes[k] <= 126
  }

  function TextOf(bytes: seq<byte>): (s: string)
    ensures |s| == |bytes|
  {
    seq(|bytes|, i requires 0 <= i < |bytes| => bytes[i] as char)
  }

  /** Neo's `unhex` into a buffer of 192: printable characters only. */
  function NameOf(hex: string): Option<string> {
    var bytes := Unhex(hex);
    if hex == "" || |hex| / 2 >= 192 || bytes.None? || !AllPrintable(bytes.value) then None
    else Some(TextOf(bytes.value))
  }

  lemma TextOfBytes(name: string)
    requires IsBytes(name)
    ensures TextOf(BytesOf(name)) == name
  {
  }

  /** The name arrives, or nothing does. */
  lemma NameReadBack(name: string)
    requires IsBytes(name)
    ensures var sent := NameOf(Hex(BytesOf(name)));
            sent.Some? ==> sent.value == name
  {
    HexRoundTrip(BytesOf(name));
    TextOfBytes(name);
  }

  lemma NameRoundTrip(name: string)
    requires 0 < |name| < 192 && forall k | 0 <= k < |name| :: ' ' <= name[k] <= '~'
    ensures NameOf(Hex(BytesOf(name))) == Some(name)
  {
    HexRoundTrip(BytesOf(name));
    TextOfBytes(name);
  }

  method HexText(text: string) returns (hex: string)
    ensures hex == Hex(BytesOf(text))
  {
    ghost var bytes := BytesOf(text);
    hex := "";
    assert bytes[0..] == bytes;
    for i := 0 to |text|
      invariant hex + Hex(bytes[i..]) == Hex(bytes)
    {
      var c := text[i] as int % 0x100;
      hex := hex + [HexDigit(c / 16)] + [HexDigit(c % 16)];
    }
  }

  /** Neo's `unhex`. */
  method UnhexName(hex: string) returns (r: Option<string>)
    ensures r == NameOf(hex)
  {
    if hex == "" || |hex| % 2 != 0 || |hex| / 2 >= 192 {
      return None;
    }
    var out, i := "", 0;
    ghost var done: seq<byte> := [];
    assert hex[0..] == hex;
    while i < |hex|
      invariant 0 <= i <= |hex| && i % 2 == 0
      invariant Continues(Unhex(hex), done, Unhex(hex[i..])) && AllPrintable(done) && out == TextOf(done)
    {
      var high, low := Nibble(hex[i]), Nibble(hex[i + 1]);
      UnhexStep(hex, i);
      if high < 0 || low < 0 {
        return None;
      }
      var value := high * 16 + low;
      OneByteOn(Unhex(hex), done, Unhex(hex[i..]), Unhex(hex[i + 2..]), value);
      if value < 32 || value > 126 {
        assert Unhex(hex).Some? ==> Unhex(hex).value[|done|] == value;
        return None;
      }
      done := done + [value];
      out := out + [value as char];
      i := i + 2;
    }
    assert done + [] == done;
    return Some(out);
  }

  // ----- fields -----

  predicate KeyAt(s: string, i: nat, key: string) {
    i + |key| <= |s| && s[i..i + |key|] == key
  }

  /** `String::indexOf`; the length of the text when there is no match. */
  function IndexOf(s: string, key: string, i: nat): (r: nat)
    requires i <= |s|
    ensures i <= r <= |s|
    decreases |s| - i
  {
    if i == |s| || KeyAt(s, i, key) then i else IndexOf(s, key, i + 1)
  }

  function Field(detail: string, key: string): string
    requires key != []
  {
    var at := IndexOf(detail, key, 0);
    if !KeyAt(detail, at, key) then ""
    else
      var start := at + |key|;
      detail[start..IndexOf(detail, " ", start)]
  }

  lemma {:induction false} FirstIndex(s: string, key: string, i: nat, at: nat)
    requires i <= at <= |s| && (at == |s| || KeyAt(s, at, key))
    requires forall j | i <= j < at :: !KeyAt(s, j, key)
    ensures IndexOf(s, key, i) == at
    decreases at - i
  {
    if i < at {
      FirstIndex(s, key, i + 1, at);
    }
  }

  /** No key can begin inside `before`: its first character is missing there or is followed
      by something else than its second. */
  predicate Avoids(before: string, key: string)
    requires |key| >= 2
  {
    forall j | 0 <= j < |before| :: before[j] != key[0] || (j + 1 < |before| && before[j + 1] != key[1])
  }

  lemma AvoidsJoin(a: string, b: string, key: string)
    requires |key| >= 2 && Avoids(a, key) && Avoids(b, key)
    ensures Avoids(a + b, key)
  {
    forall j | 0 <= j < |a + b|
      ensures (a + b)[j] != key[0] || (j + 1 < |a + b| && (a + b)[j + 1] != key[1])
    {
      if j < |a| {
        assert a[j] == (a + b)[j];
      } else {
        assert b[j - |a|] == (a + b)[j];
      }
    }
  }

  lemma FieldAt(s: string, at: nat, key: string, end: nat)
    requires |key| >= 2 && at + |key| <= end <= |s| && KeyAt(s, at, key)
    requires forall j | 0 <= j < at :: !KeyAt(s, j, key)
    requires forall j | at + |key| <= j < end :: s[j] != ' '
    requires end < |s| ==> s[end] == ' '
    ensures Field(s, key) == s[at + |key|..end]
  {
    FirstIndex(s, key, 0, at);
    forall j | at + |key| <= j < |s|
      ensures KeyAt(s, j, " ") == (s[j] == ' ')
    {
      assert s[j..j + 1] == [s[j]];
    }
    FirstIndex(s, " ", at + |key|, end);
  }

  lemma FieldIs(s: string, before: string, key: string, value: string, after: string)
    requires |key| >= 2 && s == before + key + value + after && Avoids(before, key)
    requires forall k | 0 <= k < |value| :: value[k] != ' '
    requires after == [] || after[0] == ' '
    ensures Field(s, key) == value
  {
    var at, start := |before|, |before| + |key|;
    var end := start + |value|;
    assert s[..at] == before && s[at..start] == key && s[start..end] == value && s[end..] == after;
    forall j | 0 <= j < at
      ensures !KeyAt(s, j, key)
    {
      assert s[j] == before[j] && (j + 1 < at ==> s[j + 1] == before[j + 1]);
    }
    assert forall j | start <= j < end :: s[j] == value[j - start];
    FieldAt(s, at, key, end);
  }

  // ----- the reply to VM_READ -----

  datatype Fields = Fields(size: int, data: string, eof: string)

  /** What Iris takes from the detail text; `toInt` is `strtol` in base 10. */
  function ReadFields(detail: string): Fields {
    var size := Field(detail, "size=");
    Fields(MC.Strtol(size, 0, |size|).0, Field(detail, "data="), Field(detail, "eof="))
  }

  /** What Neo prints. */
  function ReplyText(got: nat, size: nat, last: bool, bytes: seq<byte>): string {
    "value=" + MC.Decimal(got) + " size=" + MC.Decimal(size) + " eof=" + (if last then "1" else "0") + " data=" + Hex(bytes)
  }

  lemma DigitsAvoid(n: nat, key: string)
    requires |key| >= 2 && !MC.IsDigit(key[0])
    ensures Avoids(MC.Decimal(n), key)
    ensures forall k | 0 <= k < |MC.Decimal(n)| :: MC.Decimal(n)[k] != ' '
  {
    MG.DecimalIsNumeral(n);
  }

  lemma SizeField(got: nat, size: nat, after: string)
    requires after != [] && after[0] == ' '
    ensures Field("value=" + MC.Decimal(got) + " size=" + MC.Decimal(size) + after, "size=") == MC.Decimal(size)
  {
    var before := "value=" + MC.Decimal(got) + " ";
    DigitsAvoid(got, "size=");
    AvoidsJoin("value=", MC.Decimal(got), "size=");
    AvoidsJoin("value=" + MC.Decimal(got), " ", "size=");
    DigitsAvoid(size, "size=");
    var s := "value=" + MC.Decimal(got) + " size=" + MC.Decimal(size) + after;
    assert s == before + "size=" + MC.Decimal(size) + after;
    FieldIs(s, before, "size=", MC.Decimal(size), after);
  }

  lemma HeadAvoids(got: nat, size: nat, key: string)
    requires key == "eof=" || key == "data="
    ensures Avoids("value=" + MC.Decimal(got) + " size=" + MC.Decimal(size) + " ", key)
  {
    DigitsAvoid(got, key);
    DigitsAvoid(size, key);
    AvoidsJoin("value=", MC.Decimal(got), key);
    AvoidsJoin("value=" + MC.Decimal(got), " size=", key);
    AvoidsJoin("value=" + MC.Decimal(got) + " size=", MC.Decimal(size), key);
    AvoidsJoin("value=" + MC.Decimal(got) + " size=" + MC.Decimal(size), " ", key);
  }

  lemma EofField(head: string, eof: string, hex: string)
    requires Avoids(head + " ", "eof=") && (eof == "0" || eof == "1")
    ensures Field(head + " eof=" + eof + " data=" + hex, "eof=") == eof
  {
    var s := head + " eof=" + eof + " data=" + hex;
    assert s == (head + " ") + "eof=" + eof + (" data=" + hex);
    FieldIs(s, head + " ", "eof=", eof, " data=" + hex);
  }

  lemma DataField(head: string, eof: string, hex: string)
    requires Avoids(head + " ", "data=") && (eof == "0" || eof == "1")
    requires forall k | 0 <= k < |hex| :: hex[k] != ' '
    ensures Field(head + " eof=" + eof + " data=" + hex, "data=") == hex
  {
    var s, before := head + " eof=" + eof + " data=" + hex, head + " " + ("eof=" + eof + " ");
    AvoidsJoin(head + " ", "eof=" + eof + " ", "data=");
    assert s == before + "data=" + hex + "";
    FieldIs(s, before, "data=", hex, "");
  }

  /** Every field that Neo prints is the one that Iris reads, although `indexOf` takes the
      first match and the keys share letters. */
  lemma ReplyIsRead(got: nat, size: nat, last: bool, bytes: seq<byte>)
    ensures ReadFields(ReplyText(got, size, last, bytes)) == Fields(size, Hex(bytes), if last then "1" else "0")
  {
    var eof, hex := if last then "1" else "0", Hex(bytes);
    var head := "value=" + MC.Decimal(got) + " size=" + MC.Decimal(size);
    var after := " eof=" + eof + " data=" + hex;
    assert ReplyText(got, size, last, bytes) == head + " eof=" + eof + " data=" + hex == head + after;
    SizeField(got, size, after);
    NumberIsRead(size);
    HeadAvoids(got, size, "eof=");
    EofField(head, eof, hex);
    HeadAvoids(got, size, "data=");
    HexRoundTrip(bytes);
    DataField(head, eof, hex);
  }

  lemma NumberIsRead(n: nat)
    ensures MC.Strtol(MC.Decimal(n), 0, |MC.Decimal(n)|).0 == n
  {
    var d := MC.Decimal(n);
    MG.DecimalIsNumeral(n);
    MG.RunOfDigits(d, 0, |d|);
  }
}
