/** The status words of the forkserver protocol, with the bit macros of the C header. */
module Handshake {

  type word = bv32

  const FS_OPT_ERROR: word := 0xf800_008f
  const FS_OPT_ENABLED: word := 0x8000_0001
  const FS_OPT_MAPSIZE: word := 0x4000_0000
  const FS_OPT_SHDMEM_FUZZ: word := 0x0100_0000
  const FS_OPT_NEWCMPLOG: word := 0x0200_0000
  const FS_OPT_MAX_MAPSIZE: word := (0x00ff_fffe >> 1) + 1

  function GetMapsize(x: word): word {
    ((x & 0x00ff_fffe) >> 1) + 1
  }

  function SetMapsize(x: word): word {
    if x <= 1 || x > FS_OPT_MAX_MAPSIZE then 0 else (x - 1) << 1
  }

  function GetError(x: word): word {
    (x & 0x00ff_ff00) >> 8
  }

  function SetError(x: word): word {
    (x & 0x0000_ffff) << 8
  }

  /** The first word the forkserver writes. */
  function Hello(mapSize: word, sharedmem: bool): word {
    var s0 := if mapSize <= FS_OPT_MAX_MAPSIZE then SetMapsize(mapSize) | FS_OPT_MAPSIZE else 0;
    var s1 := if sharedmem then s0 | FS_OPT_SHDMEM_FUZZ else s0;
    if s1 != 0 then s1 | FS_OPT_ENABLED | FS_OPT_NEWCMPLOG else s1
  }

  predicate Has(x: word, flags: word) {
    x & flags == flags
  }

  datatype Announced = NoSize | Size(bytes: word)

  datatype Reading = Reading(size: Announced, sharedmem: bool)

  /** What the fuzzer reads out of the first word: the map size, if announced, and the sharedmem flag. */
  function Read(x: word): Reading {
    Reading(if Has(x, FS_OPT_MAPSIZE) then Size(GetMapsize(x)) else NoSize, Has(x, FS_OPT_SHDMEM_FUZZ))
  }

  /** The announced size is the real one for exactly the sizes 1 to 2^23; larger sizes are not
      announced, and size 0 is announced as 1. The sharedmem flag always survives. */
  lemma HelloDecodes(mapSize: word, sharedmem: bool)
    ensures Read(Hello(mapSize, sharedmem)).size == Size(mapSize) <==> 1 <= mapSize <= 0x80_0000
    ensures Read(Hello(mapSize, sharedmem)).size == NoSize <==> mapSize > 0x80_0000
    ensures Read(Hello(mapSize, sharedmem)).sharedmem == sharedmem
  {
    hide Hello, Read, Has;
    if mapSize > 0x80_0000 {
      LargeSize(mapSize, sharedmem);
    } else if mapSize <= 1 {
      SmallSize(mapSize, sharedmem);
    } else if sharedmem {
      SharedHello(mapSize);
    } else {
      PlainHello(mapSize);
    }
  }

  lemma LargeSize(m: word, sharedmem: bool)
    requires m > 0x80_0000
    ensures Hello(m, sharedmem) == if sharedmem then 0x8300_0001 else 0
    ensures Read(Hello(m, sharedmem)) == Reading(NoSize, sharedmem) && !Has(Hello(m, sharedmem), FS_OPT_ERROR)
  {
  }

  lemma SmallSize(m: word, sharedmem: bool)
    requires m <= 1
    ensures Hello(m, sharedmem) == if sharedmem then 0xc300_0001 else 0xc200_0001
    ensures Read(Hello(m, sharedmem)) == Reading(Size(1), sharedmem) && !Has(Hello(m, sharedmem), FS_OPT_ERROR)
  {
  }

  lemma SharedHello(m: word)
    requires 2 <= m <= 0x80_0000
    ensures Read(Hello(m, true)) == Reading(Size(m), true) && !Has(Hello(m, true), FS_OPT_ERROR)
  {
    hide Hello, Has, GetMapsize;
    SharedWord(m);
    SizeBits(m, 0xc300_0001);
  }

  lemma PlainHello(m: word)
    requires 2 <= m <= 0x80_0000
    ensures Read(Hello(m, false)) == Reading(Size(m), false) && !Has(Hello(m, false), FS_OPT_ERROR)
  {
    hide Hello, Has, GetMapsize;
    PlainWord(m);
    SizeBits(m, 0xc200_0001);
  }

  lemma SharedWord(m: word)
    requires 2 <= m <= 0x80_0000
    ensures Hello(m, true) == ((m - 1) << 1) | 0xc300_0001
  {
  }

  lemma PlainWord(m: word)
    requires 2 <= m <= 0x80_0000
    ensures Hello(m, false) == ((m - 1) << 1) | 0xc200_0001
  {
  }

  lemma SizeBits(m: word, flags: word)
    requires 2 <= m <= 0x80_0000 && (flags == 0xc300_0001 || flags == 0xc200_0001)
    ensures GetMapsize(((m - 1) << 1) | flags) == m
    ensures Has(((m - 1) << 1) | flags, FS_OPT_MAPSIZE)
    ensures Has(((m - 1) << 1) | flags, FS_OPT_SHDMEM_FUZZ) <==> flags == 0xc300_0001
    ensures !Has(((m - 1) << 1) | flags, FS_OPT_ERROR)
  {
  }

  /** The first word, bit by bit. */
  lemma HelloWord(mapSize: word, sharedmem: bool)
    ensures mapSize > 0x80_0000 ==> Hello(mapSize, sharedmem) == if sharedmem then 0x8300_0001 else 0
    ensures mapSize <= 1 ==> Hello(mapSize, sharedmem) == if sharedmem then 0xc300_0001 else 0xc200_0001
    ensures 2 <= mapSize <= 0x80_0000 && sharedmem ==> Hello(mapSize, sharedmem) == ((mapSize - 1) << 1) | 0xc300_0001
    ensures 2 <= mapSize <= 0x80_0000 && !sharedmem ==> Hello(mapSize, sharedmem) == ((mapSize - 1) << 1) | 0xc200_0001
  {
    hide Hello, Read, Has;
    if mapSize > 0x80_0000 {
      LargeSize(mapSize, sharedmem);
    } else if mapSize <= 1 {
      SmallSize(mapSize, sharedmem);
    } else if sharedmem {
      SharedWord(mapSize);
    } else {
      PlainWord(mapSize);
    }
  }

  /** The marker of error words is never fully present in a first word. */
  lemma HelloIsNoError(mapSize: word, sharedmem: bool)
    ensures Hello(mapSize, sharedmem) & 0xf800_008f != 0xf800_008f
  {
    hide Hello;
    if mapSize > 0x80_0000 {
      LargeSize(mapSize, sharedmem);
    } else if mapSize <= 1 {
      SmallSize(mapSize, sharedmem);
    } else if sharedmem {
      SharedHello(mapSize);
    } else {
      PlainHello(mapSize);
    }
  }

  datatype Sent = Nothing | Sent(word: word)

  /** A signed comparison of a two's complement word with a small non-negative bound. */
  predicate SignedAbove(x: word, bound: word) {
    x < 0x8000_0000 && x > bound
  }

  /** `send_forkserver_error`: its argument is a signed int, and only zero and codes above 0xffff are
      dropped; the result is the word written, if any. */
  function ErrorWord(error: word): Sent {
    if error == 0 || SignedAbove(error, 0xffff) then Nothing else Sent(FS_OPT_ERROR | SetError(error))
  }

  /** An error code survives the wire exactly when it is in 1..0xffff. Negative codes are sent too,
      but come back truncated. A word that is sent carries the whole error marker. */
  lemma ErrorsDecode(error: word)
    ensures ErrorWord(error).Sent? ==>
              && ErrorWord(error).word == 0xf800_008f | ((error & 0xffff) << 8)
              && ErrorWord(error).word & 0xf800_008f == 0xf800_008f
    ensures ErrorWord(error).Sent? <==> 1 <= error <= 0xffff || error >= 0x8000_0000
    ensures (ErrorWord(error).Sent? && GetError(ErrorWord(error).word) == error) <==> 1 <= error <= 0xffff
  {
    hide ErrorWord, GetError;
    WhichAreSent(error);
    WhatIsSent(error);
    WhichSurvive(error);
  }

  lemma WhichAreSent(error: word)
    ensures ErrorWord(error).Sent? <==> 1 <= error <= 0xffff || error >= 0x8000_0000
  {
    hide SetError;
  }

  lemma WhatIsSent(error: word)
    ensures ErrorWord(error).Sent? ==>
              && ErrorWord(error).word == 0xf800_008f | ((error & 0xffff) << 8)
              && ErrorWord(error).word & 0xf800_008f == 0xf800_008f
  {
    hide SetError;
    ErrorMarker(error);
  }

  lemma WhichSurvive(error: word)
    ensures (ErrorWord(error).Sent? && GetError(ErrorWord(error).word) == error) <==> 1 <= error <= 0xffff
  {
    hide SetError, GetError;
    WhichAreSent(error);
    ErrorBits(error);
  }

  lemma ErrorBits(x: word)
    ensures GetError(FS_OPT_ERROR | SetError(x)) == x & 0xffff
    ensures x & 0xffff == x <==> x <= 0xffff
  {
  }

  lemma ErrorMarker(x: word)
    ensures FS_OPT_ERROR | SetError(x) == 0xf800_008f | ((x & 0xffff) << 8)
    ensures (FS_OPT_ERROR | SetError(x)) & 0xf800_008f == 0xf800_008f
  {
  }
}
