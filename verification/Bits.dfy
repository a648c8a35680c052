/** The bit pattern of a code byte, on 16-bit words. */
module Bits {
  import opened Common
  import opened Ptq1

  lemma NextWord(b: bv16)
    requires b < 256
    ensures (b + 1) as int == b as int + 1
  {
  }

  lemma Below(b: bv16)
    requires b as int < 256
    ensures b < 256
  {
  }

  /** The 16-bit word of a byte. */
  function Word(q: Byte): (b: bv16)
    ensures b as int == q && b < 256
  {
    if q == 0 then 0
    else
      NextWord(Word(q - 1));
      Below(Word(q - 1) + 1);
      Word(q - 1) + 1
  }

  /** 0x6400 and a byte share no bits, so OR-ing them is adding them. */
  lemma OrAdds(b: bv16)
    requires b < 256
    ensures 0x6400 | b == 0x6400 + b && (0x6400 + b) as int == 0x6400 + b as int
  {
  }

  /** The code is the half whose bits are those of 1024 with the byte OR-ed in. */
  lemma CodeIsOr(q: Byte)
    ensures (0x6400 | Word(q)) as nat == 0x6400 + q
    ensures Code(q) == HalfOfBits((0x6400 | Word(q)) as nat)
  {
    OrAdds(Word(q));
  }
}
