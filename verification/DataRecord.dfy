/**
 * A data record of the packet (guest/opengl/frontend.cpp, lines 914-971): eight
 * header words, function and byte count, the arguments, then the payload.
 */
module DataRecord {

  function MaxDataBytes(words: nat, maxWords: nat): nat {
    if words + 10 <= maxWords then (maxWords - 10 - words) * 4 else 0
  }

  /** The words of a record with `words` arguments and a payload of `bytes`, the last word padded. */
  function RecordWords(words: nat, bytes: nat): nat {
    10 + words + (bytes + 3) / 4
  }

  /** The limit is exact: a payload within it, and no other, leaves a record that one packet can hold. */
  lemma DataFitsIff(words: nat, bytes: nat, maxWords: nat)
    requires words + 10 <= maxWords
    ensures bytes <= MaxDataBytes(words, maxWords) <==> 8 + 2 + words + (bytes + 3) / 4 <= maxWords
    ensures RecordWords(words, bytes) == 8 + 2 + words + (bytes + 3) / 4
  {
  }

  /** The most names one deletion record carries. */
  ghost predicate IsBatch(limit: nat, maxWords: nat) {
    limit <= 256 && RecordWords(1, 4 * limit) <= maxWords && (limit == 256 || RecordWords(1, 4 * limit + 4) > maxWords)
  }

  lemma BatchIs(maxWords: nat)
    requires 32 <= maxWords
    ensures var most := MaxDataBytes(1, maxWords) / 4; IsBatch(if most < 256 then most else 256, maxWords)
  {
    var most := MaxDataBytes(1, maxWords) / 4;
    DataFitsIff(1, 4 * most, maxWords);
    DataFitsIff(1, 4 * most + 4, maxWords);
    DataFitsIff(1, 1024, maxWords);
  }

  lemma BatchHolds(limit: nat, maxWords: nat)
    requires 32 <= maxWords && IsBatch(limit, maxWords)
    ensures limit > 0
  {
  }
}
