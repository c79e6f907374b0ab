// String helpers shared by several components.
module Strings {
  predicate IsBlank(c: char) { c == ' ' || '\t' <= c <= '\r' }

  function TrimEnd(text: string): string {
    if text == "" || !IsBlank(text[|text| - 1]) then text else TrimEnd(text[..|text| - 1])
  }

  function TrimStart(text: string): string {
    if text == "" || !IsBlank(text[0]) then text else TrimStart(text[1..])
  }

  function Trim(text: string): string { TrimStart(TrimEnd(text)) }

  function AsciiLower(text: string): string {
    seq(|text|, i requires 0 <= i < |text| =>
      if 'A' <= text[i] <= 'Z' then text[i] - 'A' + 'a' else text[i])
  }

  function JoinWith(texts: seq<string>, separator: string): string {
    if texts == [] then ""
    else if |texts| == 1 then texts[0]
    else JoinWith(texts[..|texts| - 1], separator) + separator + texts[|texts| - 1]
  }

  function Decimal(n: nat): string {
    var digit := ["0", "1", "2", "3", "4", "5", "6", "7", "8", "9"][n % 10];
    if n < 10 then digit else Decimal(n / 10) + digit
  }

  // Lexicographic order of characters.
  predicate TextBefore(a: string, b: string) {
    if b == "" then false
    else if a == "" then true
    else if a[0] != b[0] then a[0] < b[0]
    else TextBefore(a[1..], b[1..])
  }

  // At most the first `limit` characters.
  function BoundedText(text: string, limit: nat): string {
    if |text| <= limit then text else text[..limit]
  }

  predicate Contains(text: string, part: string) {
    exists i | 0 <= i <= |text| :: part <= text[i..]
  }

  lemma ContainsMiddle(a: string, part: string, b: string)
    ensures Contains(a + part + b, part)
  {
    var text := a + part + b;
    assert text[|a|..] == part + b;
  }
}
