/** Disk blocks are bytes: little-endian 32-bit words for the log header, inodes and indirect blocks, single bits for
    the free map. */
module Bytes {
  import opened Words

  const BSIZE := 512
  const WORDS := 128

  type Block = b: seq<Byte> | |b| == BSIZE witness seq(BSIZE, _ => 0)

  function ZeroBlock(): (b: Block) {
    seq(BSIZE, _ => 0)
  }

  // ---------- words ----------

  function Decode(s: seq<Byte>): (w: nat) {
    if s == [] then 0 else s[0] as int + 256 * Decode(s[1..])
  }

  function Encode(w: nat, len: nat): (s: seq<Byte>)
    ensures |s| == len
    decreases len
  {
    if len == 0 then [] else [w % 256] + Encode(w / 256, len - 1)
  }

  function Power256(len: nat): (p: nat) {
    if len == 0 then 1 else 256 * Power256(len - 1)
  }

  lemma {:induction false} DecodeBound(s: seq<Byte>)
    ensures Decode(s) < Power256(|s|)
    decreases |s|
  {
    if s == [] {
    } else {
      DecodeBound(s[1..]);
    }
  }

  lemma {:induction false} DecodeEncode(w: nat, len: nat)
    requires w < Power256(len)
    ensures Decode(Encode(w, len)) == w
    decreases len
  {
    if len == 0 {
    } else {
      DecodeEncode(w / 256, len - 1);
      assert Encode(w, len)[1..] == Encode(w / 256, len - 1);
    }
  }

  lemma WordRange(s: seq<Byte>)
    requires |s| == 4
    ensures Decode(s) < WORD_LIMIT
  {
    DecodeBound(s);
    assert Power256(4) == 256 * Power256(3) == 65536 * Power256(2);
  }

  /** ((uint*)data)[i] */
  function GetWord(b: Block, i: nat): (w: Uint)
    requires i < WORDS
  {
    WordRange(b[4 * i..4 * i + 4]);
    Decode(b[4 * i..4 * i + 4])
  }

  /** The block after ((uint*)data)[i] = w. */
  function SetWord(b: Block, i: nat, w: Uint): (r: Block)
    requires i < WORDS
  {
    b[..4 * i] + Encode(w, 4) + b[4 * i + 4..]
  }

  /** A stored word is read back, and storing a word disturbs no other word. */
  lemma SetWordReads(b: Block, i: nat, w: Uint, j: nat)
    requires i < WORDS && j < WORDS
    ensures GetWord(SetWord(b, i, w), j) == if i == j then w else GetWord(b, j)
  {
    var r := SetWord(b, i, w);
    if i == j {
      assert r[4 * i..4 * i + 4] == Encode(w, 4);
      assert Power256(4) == 256 * Power256(3) == 65536 * Power256(2);
      DecodeEncode(w, 4);
    } else {
      assert r[4 * j..4 * j + 4] == b[4 * j..4 * j + 4];
    }
  }

  lemma ZeroWords(j: nat)
    requires j < WORDS
    ensures GetWord(ZeroBlock(), j) == 0
  {
    ZeroDecodes(ZeroBlock()[4 * j..4 * j + 4]);
  }

  lemma {:induction false} ZeroDecodes(s: seq<Byte>)
    requires forall i | 0 <= i < |s| :: s[i] == 0
    ensures Decode(s) == 0
    decreases |s|
  {
    if s == [] {
    } else {
      ZeroDecodes(s[1..]);
    }
  }

  /** Consecutive words from word o on. */
  function PutWords(b: Block, o: nat, ws: seq<Uint>): (r: Block)
    requires o + |ws| <= WORDS
    decreases |ws|
  {
    if ws == [] then b
    else SetWord(PutWords(b, o, ws[..|ws| - 1]), o + |ws| - 1, ws[|ws| - 1])
  }

  lemma {:induction false} PutWordsReads(b: Block, o: nat, ws: seq<Uint>, j: nat)
    requires o + |ws| <= WORDS && j < WORDS
    ensures GetWord(PutWords(b, o, ws), j) == if o <= j < o + |ws| then ws[j - o] else GetWord(b, j)
    decreases |ws|
  {
    if ws == [] {
    } else {
      var front := ws[..|ws| - 1];
      PutWordsReads(b, o, front, j);
      SetWordReads(PutWords(b, o, front), o + |ws| - 1, ws[|ws| - 1], j);
    }
  }

  function GetWords(b: Block, o: nat, len: nat): (ws: seq<Uint>)
    requires o + len <= WORDS
    ensures |ws| == len && forall i | 0 <= i < len :: ws[i] == GetWord(b, o + i)
  {
    if len == 0 then [] else GetWords(b, o, len - 1) + [GetWord(b, o + len - 1)]
  }

  /** Stored words are read back. */
  lemma PutGetSame(b: Block, o: nat, ws: seq<Uint>)
    requires o + |ws| <= WORDS
    ensures GetWords(PutWords(b, o, ws), o, |ws|) == ws
  {
    var r := PutWords(b, o, ws);
    forall i | 0 <= i < |ws| ensures GetWord(r, o + i) == ws[i] {
      PutWordsReads(b, o, ws, o + i);
    }
  }

  /** Words elsewhere stay. */
  lemma {:induction false} PutGetElsewhere(b: Block, o: nat, ws: seq<Uint>, o': nat, len: nat)
    requires o + |ws| <= WORDS && o' + len <= WORDS && (o' + len <= o || o + |ws| <= o')
    ensures GetWords(PutWords(b, o, ws), o', len) == GetWords(b, o', len)
  {
    if len == 0 {
    } else {
      PutGetElsewhere(b, o, ws, o', len - 1);
      PutWordsReads(b, o, ws, o' + len - 1);
    }
  }

  // ---------- bits ----------

  /** 1 << k */
  function Mask(k: nat): (m: nat) {
    if k == 0 then 1 else 2 * Mask(k - 1)
  }

  /** (b & (1 << k)) != 0 */
  predicate Bit(b: nat, k: nat) {
    if k == 0 then b % 2 == 1 else Bit(b / 2, k - 1)
  }

  /** Setting a clear bit, b |= 1 << k, changes that bit alone. */
  lemma {:induction false} SetBit(b: nat, k: nat, j: nat)
    requires !Bit(b, k)
    ensures Bit(b + Mask(k), j) <==> j == k || Bit(b, j)
    decreases k
  {
    if k > 0 {
      assert (b + Mask(k)) / 2 == b / 2 + Mask(k - 1) && (b + Mask(k)) % 2 == b % 2;
      if j > 0 {
        SetBit(b / 2, k - 1, j - 1);
      }
    } else if j > 0 {
      assert (b + 1) / 2 == b / 2;
    }
  }

  /** Clearing a set bit, b &= ~(1 << k), changes that bit alone. */
  lemma {:induction false} ClearBit(b: nat, k: nat, j: nat)
    requires Bit(b, k)
    ensures b >= Mask(k) && (Bit(b - Mask(k), j) <==> j != k && Bit(b, j))
    decreases k
  {
    if k > 0 {
      var m := Mask(k - 1);
      ClearBit(b / 2, k - 1, if j > 0 then j - 1 else 0);
      assert Mask(k) == 2 * m && m <= b / 2;
      Halves(b, m);
    } else if j > 0 {
      assert (b - 1) / 2 == b / 2;
    }
  }

  lemma Halves(b: nat, m: nat)
    requires m <= b / 2
    ensures 2 * m <= b && (b - 2 * m) / 2 == b / 2 - m && (b - 2 * m) % 2 == b % 2
  {}

  lemma {:induction false} SetBitFits(b: nat, k: nat, n: nat)
    requires !Bit(b, k) && b < Mask(n) && k < n
    ensures b + Mask(k) < Mask(n)
    decreases k
  {
    var half, m := b / 2, Mask(n - 1);
    assert Mask(n) == 2 * m && b <= 2 * half + 1 && half < m;
    if k == 0 {
    } else {
      SetBitFits(half, k - 1, n - 1);
      assert b + 2 * Mask(k - 1) <= 2 * (half + Mask(k - 1)) + 1;
    }
  }

  lemma ByteMask()
    ensures Mask(8) == 256
  {
    assert Mask(8) == 16 * Mask(4);
  }
}
