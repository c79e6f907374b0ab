// What truncating a text to a token budget keeps of it.
module Truncation {
  import opened Text

  // The characters at which a sentence may be cut.
  predicate EndsSentence(c: char) { c == '.' || c == ';' || c == '\n' }

  // Nothing ends a sentence between two positions.
  predicate NoStop(text: string, from: nat, to: nat)
    requires to <= |text|
  {
    forall i | from <= i < to :: !EndsSentence(text[i])
  }

  // A cut behind the last stop of the budgeted part, or no stop in its later half.
  predicate CutWell(text: string, room: nat, kept: nat)
    requires kept <= room <= |text|
  {
    || (&& kept > 0 && EndsSentence(text[kept - 1]) && NoStop(text, kept, room)
        && 2 * ByteLen(text[..kept - 1]) + 1 >= ByteLen(text[..room]))
    || (&& kept == room
        && forall i | 0 <= i < room && 2 * ByteLen(text[..i]) + 1 >= ByteLen(text[..room]) ::
             !EndsSentence(text[i]))
  }

  // A text within three characters per token stays. A longer one ends with an
  // ellipsis within that limit, cut behind the last sentence of the part that has
  // room, unless that would lose more than half of its bytes.
  ghost predicate Shortened(text: string, tokens: nat, short: string) {
    if |text| <= 3 * tokens then short == text
    else
      var room := if tokens == 0 then 0 else 3 * tokens - 1;
      exists kept | 0 <= kept <= room :: short == text[..kept] + "\U{2026}" && CutWell(text, room, kept)
  }

  lemma TruncationMeans(text: string, tokens: nat)
    ensures Shortened(text, tokens, TruncateToTokens(text, tokens))
  {
    hide TruncateToTokens, IsAscii;
    TruncateIsKeptPrefix(text, tokens);
    if |text| > 3 * tokens {
      var room := if tokens == 0 then 0 else 3 * tokens - 1;
      KeptIsCutWell(text, tokens, room);
      assert [ELLIPSIS] == "\U{2026}";
    }
  }

  lemma KeptIsCutWell(text: string, tokens: nat, room: nat)
    requires |text| > 3 * tokens && room == SaturatingPred(3 * tokens)
    ensures CutWell(text, room, Kept(text, tokens))
  {
    hide ByteLen, LastStop, IsStop, EndsSentence;
    var cut := text[..room];
    var stop := LastStop(cut);
    assert forall i | 0 <= i <= room :: cut[..i] == text[..i];
    StopsAgree();
    assert forall i | 0 <= i < room :: cut[i] == text[i];
    if stop.Some? { BytesBefore(text, stop.value); }
  }

  lemma StopsAgree()
    ensures forall c :: IsStop(c) == EndsSentence(c)
  {
  }

  lemma BytesBefore(text: string, end: nat)
    requires end <= |text|
    ensures forall i | 0 <= i <= end :: ByteLen(text[..i]) <= ByteLen(text[..end])
  {
    forall i | 0 <= i <= end ensures ByteLen(text[..i]) <= ByteLen(text[..end]) {
      ByteLenPrefix(text[..end], i);
      assert text[..end][..i] == text[..i];
    }
  }
}
