/// A multi-word bit set of interned pause reasons.  A 32-bit word is its 32 bits,
/// least significant first; |, & and ~ act bit by bit.
module InhibitWords {
  type Word = seq<bool>

  type Words = seq<Word>

  predicate Bit(w: Word, i: nat) {
    i < |w| && w[i]
  }

  predicate Nonzero(w: Word) {
    exists i: nat :: i < |w| && Bit(w, i)
  }

  function OneShiftedBy(k: nat): (w: Word)
    ensures |w| == 32 && forall i: nat :: Bit(w, i) <==> i < 32 && i == k
  {
    seq(32, i => i == k)
  }

  function Or(a: Word, b: Word): (w: Word)
    ensures |w| == 32 && forall i: nat :: Bit(w, i) <==> i < 32 && (Bit(a, i) || Bit(b, i))
  {
    seq(32, i requires 0 <= i => Bit(a, i) || Bit(b, i))
  }

  function And(a: Word, b: Word): (w: Word)
    ensures |w| == 32 && forall i: nat :: Bit(w, i) <==> i < 32 && Bit(a, i) && Bit(b, i)
  {
    seq(32, i requires 0 <= i => Bit(a, i) && Bit(b, i))
  }

  function Not(a: Word): (w: Word)
    ensures |w| == 32 && forall i: nat :: Bit(w, i) <==> i < 32 && !Bit(a, i)
  {
    seq(32, i requires 0 <= i => !Bit(a, i))
  }

  predicate Sized(words: Words) {
    forall i :: 0 <= i < |words| ==> |words[i]| == 32
  }

  // --- word_set, word_clear, word_test ------------------------------------------

  function WordSet(words: Words, bit: nat): (r: Words)
    ensures |r| == |words| && (Sized(words) ==> Sized(r))
  {
    if bit / 32 >= |words| then words
    else words[bit / 32 := Or(words[bit / 32], OneShiftedBy(bit % 32))]
  }

  function WordClear(words: Words, bit: nat): (r: Words)
    ensures |r| == |words| && (Sized(words) ==> Sized(r))
  {
    if bit / 32 >= |words| then words
    else words[bit / 32 := And(words[bit / 32], Not(OneShiftedBy(bit % 32)))]
  }

  predicate WordTest(words: Words, bit: nat) {
    bit / 32 < |words| && Nonzero(And(words[bit / 32], OneShiftedBy(bit % 32)))
  }

  function Zero(): Word {
    seq(32, _ => false)
  }

  function Zeros(n: nat): (r: Words)
    ensures |r| == n && Sized(r)
  {
    seq(n, _ => Zero())
  }

  lemma TestReadsBit(words: Words, bit: nat)
    ensures WordTest(words, bit) <==> bit / 32 < |words| && Bit(words[bit / 32], bit % 32)
  {
    if bit / 32 < |words| {
      var masked := And(words[bit / 32], OneShiftedBy(bit % 32));
      assert Bit(masked, bit % 32) <==> Bit(words[bit / 32], bit % 32);
    }
  }

  /// word_set raises its own bit and no other; outside the words it does nothing.
  lemma SetExact(words: Words, bit: nat, other: nat)
    requires Sized(words)
    ensures WordTest(WordSet(words, bit), other) <==>
              (other == bit && bit / 32 < |words|) || WordTest(words, other)
  {
    TestReadsBit(words, other);
    TestReadsBit(WordSet(words, bit), other);
    SamePlace(bit, other);
  }

  /// word_clear lowers its own bit and no other.
  lemma ClearExact(words: Words, bit: nat, other: nat)
    requires Sized(words)
    ensures WordTest(WordClear(words, bit), other) <==> other != bit && WordTest(words, other)
  {
    TestReadsBit(words, other);
    TestReadsBit(WordClear(words, bit), other);
    SamePlace(bit, other);
  }

  lemma SamePlace(a: nat, b: nat)
    ensures a == b <==> a / 32 == b / 32 && a % 32 == b % 32
  {
    assert a == 32 * (a / 32) + a % 32 && b == 32 * (b / 32) + b % 32;
  }

  lemma ZerosTestFalse(n: nat, bit: nat)
    ensures !WordTest(Zeros(n), bit)
  {
    TestReadsBit(Zeros(n), bit);
  }

  predicate AnySet(words: Words) {
    exists i: nat :: i < |words| && Nonzero(words[i])
  }

  /// words_any_set: some word is nonzero exactly when some bit tests true.
  lemma AnySetIffSomeBit(words: Words)
    requires Sized(words)
    ensures AnySet(words) <==> exists bit: nat :: WordTest(words, bit)
  {
    if AnySet(words) {
      var i: nat :| i < |words| && Nonzero(words[i]);
      var k: nat :| k < |words[i]| && Bit(words[i], k);
      var bit := 32 * i + k;
      assert bit / 32 == i && bit % 32 == k;
      TestReadsBit(words, bit);
      assert WordTest(words, bit);
    }
    if bit: nat :| WordTest(words, bit) {
      TestReadsBit(words, bit);
    }
  }

  method ScanAnySet(words: Words) returns (any: bool)
    ensures any <==> AnySet(words)
  {
    for i := 0 to |words|
      invariant forall j: nat :: j < i ==> !Nonzero(words[j])
    {
      if Nonzero(words[i]) {
        return true;
      }
    }
    return false;
  }
}
