/** Words of the game: five letters, either as text (the list-based helper and
    the GUI) or as integer letter codes (the NumPy word banks, where a code is
    a character's code point minus the bank's smallest code point). */
module Words {
  import Seqs

  /** The fixed word length of the game. */
  const WordLength: nat := 5

  /** A word of a NumPy bank: five letter codes. */
  type Word = w: seq<int> | |w| == WordLength witness [0, 0, 0, 0, 0]

  /** A five-letter word as text. */
  type TextWord = w: string | |w| == WordLength witness "aaaaa"

  /** Python's `str.lower` on a single character, for the ASCII letters. */
  function LowerChar(ch: char): (r: char)
    ensures !('A' <= r <= 'Z')
    ensures !('A' <= ch <= 'Z') ==> r == ch
  {
    if 'A' <= ch <= 'Z' then (ch as int + 32) as char else ch
  }

  /** Python's `str.lower`, for the ASCII letters. */
  function Lower(s: string): (r: string)
    ensures |r| == |s|
    ensures forall i :: 0 <= i < |s| ==> r[i] == LowerChar(s[i])
  {
    seq(|s|, i requires 0 <= i < |s| => LowerChar(s[i]))
  }

  /** No upper-case ASCII letter occurs in `s`. */
  predicate IsLower(s: string)
  {
    forall i :: 0 <= i < |s| ==> !('A' <= s[i] <= 'Z')
  }

  /** Lower-casing twice is lower-casing once; lower-case text is left alone. */
  lemma LowerIdempotent(s: string)
    ensures IsLower(Lower(s))
    ensures Lower(Lower(s)) == Lower(s)
    ensures IsLower(s) ==> Lower(s) == s
  {
  }

  /** Integers that `chr` turns into a character (Unicode scalar values). */
  predicate IsCharCode(x: int)
  {
    0 <= x < 0xD800 || 0xE000 <= x < 0x11_0000
  }

  /** Every code of every word of `bank` is non-negative, as after the loader
      subtracts the smallest code point. */
  predicate Normalized(bank: seq<Word>)
  {
    forall w, i :: w in bank && 0 <= i < WordLength ==> w[i] >= 0
  }

  /** `np.max` over the codes of a word: the largest of them. */
  function MaxOfWord(w: seq<int>): (r: int)
    requires w != []
    ensures forall i :: 0 <= i < |w| ==> w[i] <= r
    ensures exists i :: 0 <= i < |w| && w[i] == r
  {
    if |w| == 1 then w[0] else Seqs.Max(MaxOfWord(w[..|w| - 1]), w[|w| - 1])
  }

  /** `np.max` over all codes of a bank: the largest code of its words
      (-1 for an empty bank, which the loader never produces). */
  function MaxCode(bank: seq<Word>): (r: int)
    ensures forall w, i :: w in bank && 0 <= i < WordLength ==> w[i] <= r
    ensures bank != [] ==> exists k, i :: 0 <= k < |bank| && 0 <= i < WordLength && bank[k][i] == r
    ensures bank == [] ==> r == -1
  {
    if bank == [] then -1
    else
      var last := MaxOfWord(bank[|bank| - 1]);
      if |bank| == 1 then last else Seqs.Max(MaxCode(bank[..|bank| - 1]), last)
  }

  /** A non-empty normalised bank has a largest code that is a real letter code. */
  lemma MaxCodeOfNormalized(bank: seq<Word>)
    requires bank != [] && Normalized(bank)
    ensures MaxCode(bank) >= 0
  {
    var k, i :| 0 <= k < |bank| && 0 <= i < WordLength && bank[k][i] == MaxCode(bank);
    assert bank[k] in bank;
  }

  /** `ord` of every letter of a text word. */
  function Ord(w: TextWord): (r: Word)
    ensures forall p :: 0 <= p < WordLength ==> r[p] == w[p] as int && IsCharCode(r[p])
  {
    seq(WordLength, p requires 0 <= p < WordLength => w[p] as int)
  }

  /** `word_bank.min()`: the smallest code of a non-empty bank. */
  function MinCode(bank: seq<Word>): (r: int)
    requires bank != []
    ensures forall i, p :: 0 <= i < |bank| && 0 <= p < WordLength ==> r <= bank[i][p]
    ensures exists i, p :: 0 <= i < |bank| && 0 <= p < WordLength && bank[i][p] == r
  {
    var last := bank[|bank| - 1];
    var m := Seqs.Min(Seqs.Min(Seqs.Min(last[0], last[1]), Seqs.Min(last[2], last[3])), last[4]);
    assert exists p :: 0 <= p < WordLength && last[p] == m;
    if |bank| == 1 then m else Seqs.Min(MinCode(bank[..|bank| - 1]), m)
  }

  /** Every code of `w` lowered by `key`. */
  function Shift(w: Word, key: int): (r: Word)
    ensures forall p :: 0 <= p < WordLength ==> r[p] == w[p] - key
  {
    seq(WordLength, p requires 0 <= p < WordLength => w[p] - key)
  }

  /** The loader's conversion of a word list: code points, less the smallest
      code point of the whole list, which becomes the converter key. */
  function LoadBank(words: seq<TextWord>): (r: (seq<Word>, int))
    requires words != []
    ensures |r.0| == |words|
    ensures forall i, p :: 0 <= i < |words| && 0 <= p < WordLength ==> r.0[i][p] + r.1 == words[i][p] as int
    ensures Normalized(r.0)
    ensures exists i, p :: 0 <= i < |words| && 0 <= p < WordLength && r.0[i][p] == 0
  {
    var raw := seq(|words|, i requires 0 <= i < |words| => Ord(words[i]));
    var key := MinCode(raw);
    var bank := seq(|raw|, i requires 0 <= i < |raw| => Shift(raw[i], key));
    ShiftedByMin(raw, bank);
    (bank, key)
  }

  /** Lowering every code by the smallest one leaves no code negative and
      some code zero. */
  lemma ShiftedByMin(raw: seq<Word>, bank: seq<Word>)
    requires raw != [] && |bank| == |raw|
    requires forall i :: 0 <= i < |raw| ==> bank[i] == Shift(raw[i], MinCode(raw))
    ensures Normalized(bank)
    ensures exists i, p :: 0 <= i < |bank| && 0 <= p < WordLength && bank[i][p] == 0
  {
    var key := MinCode(raw);
    forall w, p | w in bank && 0 <= p < WordLength ensures w[p] >= 0 {
      var i :| 0 <= i < |bank| && bank[i] == w;
      assert raw[i][p] >= key;
    }
    var i, p :| 0 <= i < |raw| && 0 <= p < WordLength && raw[i][p] == key;
    assert bank[i][p] == 0;
  }

  /** `encode_word`: the code of each lower-cased letter, less the key. */
  function Encode(word: string, key: int): (r: seq<int>)
    ensures |r| == |word|
    ensures forall i :: 0 <= i < |word| ==> r[i] + key == LowerChar(word[i]) as int
  {
    seq(|word|, i requires 0 <= i < |word| => LowerChar(word[i]) as int - key)
  }

  /** Codes that `decode_word` can turn back into characters. */
  predicate Decodable(codes: seq<int>, key: int)
  {
    forall i :: 0 <= i < |codes| ==> IsCharCode(codes[i] + key)
  }

  /** `decode_word`: `chr` of each code plus the key. */
  function Decode(codes: seq<int>, key: int): (r: string)
    requires Decodable(codes, key)
    ensures |r| == |codes|
    ensures forall i :: 0 <= i < |codes| ==> r[i] as int == codes[i] + key
  {
    seq(|codes|, i requires 0 <= i < |codes| => (codes[i] + key) as char)
  }

  /** Decoding an encoded word gives the word lower-cased, whatever the key. */
  lemma DecodeEncode(word: string, key: int)
    ensures Decodable(Encode(word, key), key)
    ensures Decode(Encode(word, key), key) == Lower(word)
  {
    var e := Encode(word, key);
    forall i | 0 <= i < |e| ensures IsCharCode(e[i] + key) {
      assert e[i] + key == LowerChar(word[i]) as int;
    }
  }

  /** Encoding a decoded word gives the codes back when no code decodes to an
      upper-case letter; in particular every word of a bank loaded from
      lower-case text round-trips. */
  lemma EncodeDecode(codes: seq<int>, key: int)
    requires Decodable(codes, key)
    requires IsLower(Decode(codes, key))
    ensures Encode(Decode(codes, key), key) == codes
  {
  }

  /** A loaded word decodes to the text it was loaded from. */
  lemma LoadedWordsDecode(words: seq<TextWord>, i: nat)
    requires words != [] && i < |words|
    ensures Decodable(LoadBank(words).0[i], LoadBank(words).1)
    ensures Decode(LoadBank(words).0[i], LoadBank(words).1) == words[i]
  {
    var (bank, key) := LoadBank(words);
    forall p | 0 <= p < WordLength ensures IsCharCode(bank[i][p] + key) {
      assert bank[i][p] + key == words[i][p] as int;
    }
    var d := Decode(bank[i], key);
    assert forall p :: 0 <= p < WordLength ==> d[p] == words[i][p];
  }
}
