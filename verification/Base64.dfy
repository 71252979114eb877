/**
 The unpadded base64url codec (src/common.rs).

 The reference is the bit stream of RFC 4648, section 5: the input bytes written out most
 significant bit first, padded with zero bits to a multiple of six and cut into sextets. The
 loops, with their 32-bit accumulators, are proved equal to it; the laws are proved about it.
 */
module Base64 {
  import opened Changes
  import Sequences

  // ---------- the alphabet and its inverse ----------

  const UPPER := "ABCDEFGHIJKLMNOPQRSTUVWXYZ"
  const LOWER := "abcdefghijklmnopqrstuvwxyz"
  const DIGITS := "0123456789"
  const ALPHABET := UPPER + LOWER + DIGITS + "-_"

  /** Position of a character in the alphabet, or -1. */
  function IndexOf(c: char): (i: int)
    ensures -1 <= i < 64
  {
    if 'A' <= c <= 'Z' then c as int - 65
    else if 'a' <= c <= 'z' then c as int - 71
    else if '0' <= c <= '9' then c as int + 4
    else if c == '-' then 62
    else if c == '_' then 63
    else -1
  }

  function CodeOf(i: int): int {
    if i < 26 then 65 + i else if i < 52 then 71 + i else if i < 62 then i - 4 else if i == 62 then 45 else 95
  }

  lemma LetterCodes(i: nat)
    requires i < 26
    ensures UPPER[i] as int == 65 + i && LOWER[i] as int == 97 + i
  {
  }

  lemma DigitCodes(i: nat)
    requires i < 10
    ensures DIGITS[i] as int == 48 + i
  {
  }

  lemma AlphabetCodes(i: nat)
    requires i < 64
    ensures |ALPHABET| == 64 && ALPHABET[i] as int == CodeOf(i)
  {
    if i < 26 {
      LetterCodes(i);
    } else if i < 52 {
      LetterCodes(i - 26);
    } else if i < 62 {
      DigitCodes(i - 52);
    }
  }

  /** `IndexOf` is the exact inverse of indexing the alphabet. */
  lemma AlphabetInverse(i: nat)
    requires i < 64
    ensures |ALPHABET| == 64 && IndexOf(ALPHABET[i]) == i
  {
    AlphabetCodes(i);
  }

  lemma AlphabetContains(c: char)
    requires IndexOf(c) >= 0
    ensures |ALPHABET| == 64 && ALPHABET[IndexOf(c)] == c
  {
    AlphabetCodes(IndexOf(c));
    assert ALPHABET[IndexOf(c)] as int == c as int;
  }

  function Symbol(v: bv6): (c: char)
    ensures IndexOf(c) == v as int
  {
    AlphabetInverse(v as int);
    ALPHABET[v as int]
  }

  lemma SixBits(i: nat)
    requires i < 64
    ensures (i as bv6) as int == i
  {
  }

  lemma SymbolInAlphabet(v: bv6)
    ensures Symbol(v) in ALPHABET && Symbol(v) != '='
  {
    AlphabetContains(Symbol(v));
  }

  function ValueOf(c: char): (v: bv6)
    requires IndexOf(c) >= 0
    ensures v as int == IndexOf(c)
  {
    SixBits(IndexOf(c));
    IndexOf(c) as bv6
  }

  lemma ValueOfSymbol(v: bv6)
    ensures ValueOf(Symbol(v)) == v
  {
    assert ValueOf(Symbol(v)) as int == v as int;
  }

  lemma SymbolInjective(c: char, d: char)
    requires IndexOf(c) >= 0 && IndexOf(d) >= 0 && ValueOf(c) == ValueOf(d)
    ensures c == d
  {
    AlphabetContains(c);
    AlphabetContains(d);
  }

  predicate OverAlphabet(s: string) {
    forall i :: 0 <= i < |s| ==> IndexOf(s[i]) >= 0
  }

  // ---------- the bit stream ----------

  type Bits = seq<bool>

  function Bits8(b: bv8): (bits: Bits)
    ensures |bits| == 8
  {
    [b & 0x80 != 0, b & 0x40 != 0, b & 0x20 != 0, b & 0x10 != 0, b & 0x08 != 0, b & 0x04 != 0, b & 0x02 != 0,
      b & 0x01 != 0]
  }

  function Bits6(v: bv6): (bits: Bits)
    ensures |bits| == 6
  {
    [v & 0x20 != 0, v & 0x10 != 0, v & 0x08 != 0, v & 0x04 != 0, v & 0x02 != 0, v & 0x01 != 0]
  }

  function Join6(b0: bool, b1: bool, b2: bool, b3: bool, b4: bool, b5: bool): bv6 {
    (if b0 then 0x20 else 0) | (if b1 then 0x10 else 0) | (if b2 then 0x08 else 0) |
    (if b3 then 0x04 else 0) | (if b4 then 0x02 else 0) | (if b5 then 0x01 else 0)
  }

  function Join8(b0: bool, b1: bool, b2: bool, b3: bool, b4: bool, b5: bool, b6: bool, b7: bool): bv8 {
    (if b0 then 0x80 else 0) | (if b1 then 0x40 else 0) | (if b2 then 0x20 else 0) | (if b3 then 0x10 else 0) |
    (if b4 then 0x08 else 0) | (if b5 then 0x04 else 0) | (if b6 then 0x02 else 0) | (if b7 then 0x01 else 0)
  }

  lemma Join6Bits(b0: bool, b1: bool, b2: bool, b3: bool, b4: bool, b5: bool)
    ensures Bits6(Join6(b0, b1, b2, b3, b4, b5)) == [b0, b1, b2, b3, b4, b5]
  {
  }

  lemma Join8Bits(b0: bool, b1: bool, b2: bool, b3: bool, b4: bool, b5: bool, b6: bool, b7: bool)
    ensures Bits8(Join8(b0, b1, b2, b3, b4, b5, b6, b7)) == [b0, b1, b2, b3, b4, b5, b6, b7]
  {
  }

  function Pack6(b: Bits): bv6
    requires |b| == 6
  {
    Join6(b[0], b[1], b[2], b[3], b[4], b[5])
  }

  function Pack8(b: Bits): bv8
    requires |b| == 8
  {
    Join8(b[0], b[1], b[2], b[3], b[4], b[5], b[6], b[7])
  }

  lemma Pack6Bits(b: Bits)
    requires |b| == 6
    ensures Bits6(Pack6(b)) == b
  {
    hide Bits6, Join6;
    Join6Bits(b[0], b[1], b[2], b[3], b[4], b[5]);
    Sequences.Six(b);
  }

  lemma Pack8Bits(b: Bits)
    requires |b| == 8
    ensures Bits8(Pack8(b)) == b
  {
    hide Bits8, Join8;
    Join8Bits(b[0], b[1], b[2], b[3], b[4], b[5], b[6], b[7]);
    Sequences.Eight(b);
  }

  lemma Bits8Injective(x: bv8, y: bv8)
    requires Bits8(x) == Bits8(y)
    ensures x == y
  {
    assert Bits8(x)[0] == Bits8(y)[0] && Bits8(x)[1] == Bits8(y)[1] && Bits8(x)[2] == Bits8(y)[2]
           && Bits8(x)[3] == Bits8(y)[3];
    assert Bits8(x)[4] == Bits8(y)[4] && Bits8(x)[5] == Bits8(y)[5] && Bits8(x)[6] == Bits8(y)[6]
           && Bits8(x)[7] == Bits8(y)[7];
  }

  lemma Bits6Injective(x: bv6, y: bv6)
    requires Bits6(x) == Bits6(y)
    ensures x == y
  {
    assert Bits6(x)[0] == Bits6(y)[0] && Bits6(x)[1] == Bits6(y)[1] && Bits6(x)[2] == Bits6(y)[2];
    assert Bits6(x)[3] == Bits6(y)[3] && Bits6(x)[4] == Bits6(y)[4] && Bits6(x)[5] == Bits6(y)[5];
  }

  function ByteStream(b: seq<bv8>): (bits: Bits)
    ensures |bits| == 8 * |b|
  {
    if b == [] then [] else Bits8(b[0]) + ByteStream(b[1..])
  }

  function SextetStream(v: seq<bv6>): (bits: Bits)
    ensures |bits| == 6 * |v|
  {
    if v == [] then [] else Bits6(v[0]) + SextetStream(v[1..])
  }

  function Zeros(n: nat): (z: Bits)
    ensures |z| == n
  {
    seq(n, _ => false)
  }

  /** Sextets of a bit stream; the last one is filled up with zero bits. */
  function Group6(bits: Bits): seq<bv6> {
    if bits == [] then []
    else if |bits| < 6 then [Pack6(bits + Zeros(6 - |bits|))]
    else [Pack6(bits[..6])] + Group6(bits[6..])
  }

  /** The complete bytes of a bit stream; leftover bits are dropped. */
  function Group8(bits: Bits): seq<bv8> {
    if |bits| < 8 then [] else [Pack8(bits[..8])] + Group8(bits[8..])
  }

  function Symbols(v: seq<bv6>): string {
    seq(|v|, i requires 0 <= i < |v| => Symbol(v[i]))
  }

  function Values(s: string): seq<bv6>
    requires OverAlphabet(s)
  {
    seq(|s|, i requires 0 <= i < |s| => ValueOf(s[i]))
  }

  function Encode(b: seq<bv8>): string {
    Symbols(Group6(ByteStream(b)))
  }

  function Decode(s: string): Result<seq<bv8>, string> {
    if OverAlphabet(s) then Ok(Group8(SextetStream(Values(s)))) else Err("invalid base64 character")
  }

  // ---------- laws of the codec ----------

  function Padding(n: nat): nat {
    (6 - n % 6) % 6
  }

  lemma PaddingStep(n: nat)
    requires n >= 6
    ensures Padding(n) == Padding(n - 6) && (n + 5) / 6 == (n - 1) / 6 + 1
  {
  }

  lemma Group6Cons(bits: Bits)
    requires |bits| >= 6
    ensures Group6(bits) == [Pack6(bits[..6])] + Group6(bits[6..])
  {
    hide Pack6;
  }

  lemma SextetCons(v: bv6, w: seq<bv6>)
    ensures SextetStream([v] + w) == Bits6(v) + SextetStream(w)
  {
    hide Bits6;
    assert ([v] + w)[1..] == w;
  }

  lemma Group6Few(bits: Bits)
    requires 0 < |bits| < 6
    ensures Group6(bits) == [Pack6(bits + Zeros(6 - |bits|))]
  {
    hide Pack6, Zeros;
  }

  lemma OneSextet(v: bv6)
    ensures SextetStream([v]) == Bits6(v)
  {
    hide Bits6;
    assert SextetStream([]) == [];
    assert [v][1..] == [];
    assert Bits6(v) + [] == Bits6(v);
  }

  lemma {:induction false} Group6Bits(bits: Bits)
    ensures |Group6(bits)| == (|bits| + 5) / 6
    ensures SextetStream(Group6(bits)) == bits + Zeros(Padding(|bits|))
  {
    hide Bits6, Pack6;
    if bits == [] {
    } else if |bits| < 6 {
      hide *;
      Group6Few(bits);
      Pack6Bits(bits + Zeros(6 - |bits|));
      OneSextet(Pack6(bits + Zeros(6 - |bits|)));
      FewCount(|bits|);
    } else {
      Group6Bits(bits[6..]);
      hide *;
      Group6Cons(bits);
      Pack6Bits(bits[..6]);
      PaddingStep(|bits|);
      SextetCons(Pack6(bits[..6]), Group6(bits[6..]));
      Sequences.Associative(bits[..6], bits[6..], Zeros(Padding(|bits|)));
      Sequences.Halves(bits, 6);
      GroupCount(|bits|);
    }
  }

  lemma FewCount(n: nat)
    requires 0 < n < 6
    ensures (n + 5) / 6 == 1 && Padding(n) == 6 - n
  {
    assert n % 6 == n;
  }

  lemma GroupCount(n: nat)
    requires n >= 6
    ensures (n + 5) / 6 == 1 + (n - 6 + 5) / 6
  {
  }

  lemma {:induction false} Group8Bits(bits: Bits)
    ensures |Group8(bits)| == |bits| / 8
    ensures ByteStream(Group8(bits)) == bits[..8 * (|bits| / 8)]
  {
    hide Bits8, Pack8;
    if |bits| >= 8 {
      Pack8Bits(bits[..8]);
      Group8Bits(bits[8..]);
      assert Group8(bits)[1..] == Group8(bits[8..]);
    }
  }

  lemma {:induction false} Group8Inverse(b: seq<bv8>, rest: Bits)
    requires |rest| < 8
    ensures Group8(ByteStream(b) + rest) == b
  {
    hide Bits8, Pack8;
    if b != [] {
      var bits := ByteStream(b) + rest;
      assert bits[..8] == Bits8(b[0]) && bits[8..] == ByteStream(b[1..]) + rest;
      Pack8Bits(bits[..8]);
      Bits8Injective(Pack8(bits[..8]), b[0]);
      Group8Inverse(b[1..], rest);
    }
  }

  lemma {:induction false} SextetStreamInjective(v: seq<bv6>, w: seq<bv6>)
    requires SextetStream(v) == SextetStream(w)
    ensures v == w
  {
    hide Bits6;
    assert |v| == |w|;
    if v != [] {
      assert SextetStream(v)[..6] == Bits6(v[0]) && SextetStream(w)[..6] == Bits6(w[0]);
      assert SextetStream(v)[6..] == SextetStream(v[1..]) && SextetStream(w)[6..] == SextetStream(w[1..]);
      Bits6Injective(v[0], w[0]);
      SextetStreamInjective(v[1..], w[1..]);
    }
  }

  lemma ValuesOfSymbols(v: seq<bv6>)
    ensures OverAlphabet(Symbols(v)) && Values(Symbols(v)) == v
  {
    forall i | 0 <= i < |v|
      ensures IndexOf(Symbols(v)[i]) >= 0 && ValueOf(Symbols(v)[i]) == v[i]
    {
      ValueOfSymbol(v[i]);
    }
  }

  lemma SameValues(s: string, t: string)
    requires OverAlphabet(s) && OverAlphabet(t) && Values(s) == Values(t)
    ensures s == t
  {
    assert |Values(s)| == |s| && |Values(t)| == |t|;
    forall i | 0 <= i < |s|
      ensures s[i] == t[i]
    {
      assert Values(s)[i] == Values(t)[i];
      SymbolInjective(s[i], t[i]);
    }
  }

  /** The text of n bytes has ceil(4n / 3) characters, all from the alphabet, none of them padding. */
  lemma EncodedText(b: seq<bv8>)
    ensures |Encode(b)| == (4 * |b| + 2) / 3
    ensures forall c :: c in Encode(b) ==> c in ALPHABET
    ensures '=' !in Encode(b)
  {
    hide Symbol, Group6, ByteStream, ALPHABET;
    var v := Group6(ByteStream(b));
    Group6Bits(ByteStream(b));
    forall i | 0 <= i < |v|
      ensures Encode(b)[i] in ALPHABET && Encode(b)[i] != '='
    {
      SymbolInAlphabet(v[i]);
    }
  }

  /** Decoding gives back every encoded byte sequence (test_base64_url_roundtrip). */
  lemma RoundTrip(b: seq<bv8>)
    ensures Decode(Encode(b)) == Ok(b)
  {
    var bits := ByteStream(b);
    ValuesOfSymbols(Group6(bits));
    Group6Bits(bits);
    Group8Inverse(b, Zeros(Padding(|bits|)));
  }

  lemma EncodeInjective(a: seq<bv8>, b: seq<bv8>)
    requires Encode(a) == Encode(b)
    ensures a == b
  {
    RoundTrip(a);
    RoundTrip(b);
  }

  /** Decoding fails exactly on a character outside the alphabet; otherwise the length is fixed. */
  lemma DecodeOutcome(s: string)
    ensures Decode(s).Err? <==> exists c :: c in s && c !in ALPHABET
    ensures Decode(s).Ok? ==> |Decode(s).value| == 6 * |s| / 8
  {
    forall c: char
      ensures IndexOf(c) >= 0 <==> c in ALPHABET
    {
      if IndexOf(c) >= 0 {
        AlphabetContains(c);
      } else if c in ALPHABET {
        AlphabetCodes(0);
        var k :| 0 <= k < |ALPHABET| && ALPHABET[k] == c;
        AlphabetInverse(k);
      }
    }
    if OverAlphabet(s) {
      Group8Bits(SextetStream(Values(s)));
    } else {
      var i :| 0 <= i < |s| && IndexOf(s[i]) < 0;
      assert s[i] in s && s[i] !in ALPHABET;
    }
  }

  /** No character is left dangling, and the unused low bits of the last sextet are zero. */
  predicate Canonical(s: string) {
    && OverAlphabet(s)
    && |s| % 4 != 1
    && var bits := SextetStream(Values(s));
       forall k :: 8 * (|bits| / 8) <= k < |bits| ==> !bits[k]
  }

  /** Re-encoding reproduces a text exactly when it is canonical (RFC 4648, section 3.5). */
  lemma Canonicality(s: string)
    ensures Decode(s).Ok? && Encode(Decode(s).value) == s <==> Canonical(s)
  {
    if OverAlphabet(s) {
      var v := Values(s);
      var bits := SextetStream(v);
      var kept := bits[..8 * (|bits| / 8)];
      var w := Group6(kept);
      Group8Bits(bits);
      Group6Bits(kept);
      ValuesOfSymbols(w);
      var again := kept + Zeros(Padding(|kept|));
      assert SextetStream(w) == again;
      assert Symbols(w) == s <==> bits == again by {
        if bits == again {
          SextetStreamInjective(v, w);
          SameValues(s, Symbols(w));
        }
      }
      CanonicalBits(|s|, bits, kept, again);
    }
  }

  lemma CutAndPad(n: nat)
    ensures var kept := 8 * (6 * n / 8);
            kept + Padding(kept) == 6 * n <==> n % 4 != 1
  {
    var q, r := n / 4, n % 4;
    var t := if r < 2 then 0 else r - 1;
    WholeBytes(q, r);
    assert 8 * (6 * n / 8) == 24 * q + 8 * t;
    BytePadding(q, t);
  }

  lemma WholeBytes(q: nat, r: nat)
    requires r < 4
    ensures 6 * (4 * q + r) / 8 == 3 * q + if r < 2 then 0 else r - 1
  {
  }

  lemma BytePadding(q: nat, t: nat)
    requires t < 3
    ensures Padding(24 * q + 8 * t) == if t == 0 then 0 else if t == 1 then 4 else 2
  {
    Remainder(4 * q + t, 2 * t);
    assert 24 * q + 8 * t == 6 * (4 * q + t) + 2 * t;
  }

  lemma Remainder(k: nat, r: nat)
    requires r < 6
    ensures (6 * k + r) % 6 == r
  {
  }

  /** The arithmetic and bit part of `Canonicality`: when cutting and padding again is the identity. */
  lemma CanonicalBits(n: nat, bits: Bits, kept: Bits, again: Bits)
    requires |bits| == 6 * n && kept == bits[..8 * (|bits| / 8)] && again == kept + Zeros(Padding(|kept|))
    ensures bits == again <==> n % 4 != 1 && forall k :: |kept| <= k < |bits| ==> !bits[k]
  {
    CutAndPad(n);
    if bits == again {
      forall k | |kept| <= k < |bits|
        ensures !bits[k]
      {
        assert again[k] == Zeros(Padding(|kept|))[k - |kept|];
      }
    } else if n % 4 != 1 {
      var k :| 0 <= k < |bits| && bits[k] != again[k];
      assert k >= |kept|;
    }
  }

  // ---------- the encoder's loops ----------

  function ByteOrZero(b: seq<bv8>, i: nat): bv8 {
    if i < |b| then b[i] else 0
  }

  /** The 24-bit word of a chunk of at most three bytes. */
  function ChunkWord(c: seq<bv8>): bv32 {
    Word(ByteOrZero(c, 0), ByteOrZero(c, 1), ByteOrZero(c, 2))
  }

  function Word(c0: bv8, c1: bv8, c2: bv8): bv32 {
    (c0 as bv32 << 16) | (c1 as bv32 << 8) | c2 as bv32
  }

  /** `n >> k`, with the shift amounts that occur written as literals. */
  function ShiftRight(n: bv32, k: nat): bv32
    requires k <= 32
  {
    match k
    case 18 => n >> 18
    case 12 => n >> 12
    case 6 => n >> 6
    case 4 => n >> 4
    case 2 => n >> 2
    case 0 => n
    case _ => n >> k
  }

  /** `n << k`, likewise. */
  function ShiftLeft(n: bv32, k: nat): bv32
    requires k <= 32
  {
    match k
    case 16 => n << 16
    case 8 => n << 8
    case 0 => n
    case _ => n << k
  }

  function SextetOfWord(n: bv32, i: nat): bv6
    requires i < 4
  {
    (ShiftRight(n, 18 - i * 6) & 0x3F) as bv6
  }

  function High6(c: bv8): bv6 { (c >> 2) as bv6 }

  function Low2High4(c: bv8, d: bv8): bv6 { (((c & 0x03) << 4) | (d >> 4)) as bv6 }

  function Low4High2(c: bv8, d: bv8): bv6 { (((c & 0x0F) << 2) | (d >> 6)) as bv6 }

  function Low6(c: bv8): bv6 { (c & 0x3F) as bv6 }

  lemma WordSextets(c0: bv8, c1: bv8, c2: bv8)
    ensures var n := Word(c0, c1, c2);
            && SextetOfWord(n, 0) == High6(c0)
            && SextetOfWord(n, 1) == Low2High4(c0, c1)
            && SextetOfWord(n, 2) == Low4High2(c1, c2)
            && SextetOfWord(n, 3) == Low6(c2)
  {
  }

  lemma SplitBits(c: bv8, d: bv8)
    ensures var b, e := Bits8(c), Bits8(d);
            && Bits6(High6(c)) == [b[0], b[1], b[2], b[3], b[4], b[5]]
            && Bits6(Low2High4(c, d)) == [b[6], b[7], e[0], e[1], e[2], e[3]]
            && Bits6(Low4High2(c, d)) == [b[4], b[5], b[6], b[7], e[0], e[1]]
            && Bits6(Low6(d)) == [e[2], e[3], e[4], e[5], e[6], e[7]]
  {
  }

  lemma SplitSlices(c: bv8, d: bv8)
    ensures Bits6(High6(c)) == Bits8(c)[..6]
    ensures Bits6(Low2High4(c, d)) == Bits8(c)[6..] + Bits8(d)[..4]
    ensures Bits6(Low4High2(c, d)) == Bits8(c)[4..] + Bits8(d)[..2]
    ensures Bits6(Low6(d)) == Bits8(d)[2..]
  {
    hide Bits8, Bits6, High6, Low2High4, Low4High2, Low6;
    SplitBits(c, d);
  }

  function WordSextetSeq(c: seq<bv8>): (v: seq<bv6>)
    ensures |v| == 4
  {
    var n := ChunkWord(c);
    [SextetOfWord(n, 0), SextetOfWord(n, 1), SextetOfWord(n, 2), SextetOfWord(n, 3)]
  }

  lemma PackedSextet(b: Bits, v: bv6)
    requires |b| == 6 && Bits6(v) == b
    ensures Pack6(b) == v
  {
    Pack6Bits(b);
    Bits6Injective(Pack6(b), v);
  }

  /** The first sextet of a stream, and what is left. */
  lemma Group6Step(bits: Bits, head: Bits, v: bv6, rest: Bits)
    requires |head| == 6 && bits == head + rest && Bits6(v) == head
    ensures Group6(bits) == [v] + Group6(rest)
  {
    hide Bits6, Pack6;
    PackedSextet(head, v);
    assert bits[..6] == head && bits[6..] == rest;
  }

  lemma Group6Last(bits: Bits, v: bv6)
    requires 0 < |bits| < 6 && Bits6(v) == bits + Zeros(6 - |bits|)
    ensures Group6(bits) == [v]
  {
    hide Bits6, Pack6;
    PackedSextet(bits + Zeros(6 - |bits|), v);
  }

  lemma Regroup(b0: Bits, b1: Bits, b2: Bits, rest: Bits)
    requires |b0| == |b1| == |b2| == 8
    ensures b0 + b1 + b2 + rest == b0[..6] + ((b0[6..] + b1[..4]) + ((b1[4..] + b2[..2]) + (b2[2..] + rest)))
  {
    assert b0 == b0[..6] + b0[6..] && b1 == b1[..4] + b1[4..] && b2 == b2[..2] + b2[2..];
  }

  /** Three bytes are four sextets. */
  lemma FullGroup(c: seq<bv8>, rest: Bits)
    requires |c| == 3
    ensures Group6(Bits8(c[0]) + Bits8(c[1]) + Bits8(c[2]) + rest) == WordSextetSeq(c) + Group6(rest)
  {
    hide *;
    var b0, b1, b2 := Bits8(c[0]), Bits8(c[1]), Bits8(c[2]);
    var t3 := b2[2..] + rest;
    var t2 := (b1[4..] + b2[..2]) + t3;
    var t1 := (b0[6..] + b1[..4]) + t2;
    var t0 := b0[..6] + t1;
    Regroup(b0, b1, b2, rest);
    ChunkSextets(c);
    Group6Step(t3, b2[2..], Low6(c[2]), rest);
    Group6Step(t2, b1[4..] + b2[..2], Low4High2(c[1], c[2]), t3);
    Group6Step(t1, b0[6..] + b1[..4], Low2High4(c[0], c[1]), t2);
    Group6Step(t0, b0[..6], High6(c[0]), t1);
    assert Group6(t0) == [High6(c[0])]
           + ([Low2High4(c[0], c[1])] + ([Low4High2(c[1], c[2])] + ([Low6(c[2])] + Group6(rest))));
  }

  /** The sextets of a three-byte chunk's word, and their bits. */
  lemma ChunkSextets(c: seq<bv8>)
    requires |c| == 3
    ensures WordSextetSeq(c) == [High6(c[0]), Low2High4(c[0], c[1]), Low4High2(c[1], c[2]), Low6(c[2])]
    ensures Bits6(High6(c[0])) == Bits8(c[0])[..6]
    ensures Bits6(Low2High4(c[0], c[1])) == Bits8(c[0])[6..] + Bits8(c[1])[..4]
    ensures Bits6(Low4High2(c[1], c[2])) == Bits8(c[1])[4..] + Bits8(c[2])[..2]
    ensures Bits6(Low6(c[2])) == Bits8(c[2])[2..]
  {
    hide Bits8, Bits6, High6, Low2High4, Low4High2, Low6, SextetOfWord, Word;
    WordSextets(c[0], c[1], c[2]);
    SplitSlices(c[0], c[1]);
    SplitSlices(c[1], c[2]);
  }

  lemma ZeroByteBits()
    ensures Bits8(0) == Zeros(8)
  {
  }

  /** Two trailing bytes are three sextets. */
  lemma TwoByteGroup(c: seq<bv8>)
    requires |c| == 2
    ensures Group6(Bits8(c[0]) + Bits8(c[1])) == WordSextetSeq(c)[..3]
  {
    hide Bits8, Bits6, High6, Low2High4, Low4High2, Low6, SextetOfWord, Group6, ChunkWord;
    var z := c + [0];
    ChunkSextets(z);
    ZeroByteBits();
    assert WordSextetSeq(z) == WordSextetSeq(c) by { PadChunk(c); }
    var b0, b1 := Bits8(c[0]), Bits8(c[1]);
    assert b1[4..] + Zeros(2) == b1[4..] + Zeros(8)[..2];
    Group6Last(b1[4..], Low4High2(c[1], 0));
    var t1 := (b0[6..] + b1[..4]) + b1[4..];
    Group6Step(t1, b0[6..] + b1[..4], Low2High4(c[0], c[1]), b1[4..]);
    Group6Step(b0[..6] + t1, b0[..6], High6(c[0]), t1);
    Regroup(b0, b1, b1, []);
    assert b0 + b1 == b0[..6] + t1;
  }

  lemma PadChunk(c: seq<bv8>)
    requires |c| < 3
    ensures ChunkWord(c + [0]) == ChunkWord(c)
  {
    assert forall i: nat | i < 3 :: ByteOrZero(c + [0], i) == ByteOrZero(c, i);
  }

  /** One trailing byte is two sextets. */
  lemma OneByteGroup(c: seq<bv8>)
    requires |c| == 1
    ensures Group6(Bits8(c[0])) == WordSextetSeq(c)[..2]
  {
    hide Bits8, Bits6, High6, Low2High4, Low4High2, Low6, SextetOfWord, Group6, Word;
    WordSextets(c[0], 0, 0);
    SplitBits(c[0], 0);
    ZeroByteBits();
    var b0 := Bits8(c[0]);
    assert b0[6..] + Zeros(4) == [b0[6], b0[7], false, false, false, false];
    Group6Last(b0[6..], Low2High4(c[0], 0));
    Group6Step(b0, b0[..6], High6(c[0]), b0[6..]);
  }

  /** The source's `n |= (byte as u32) << k`. */
  function Absorb(n: bv32, b: bv8, k: nat): bv32
    requires k <= 32
  {
    n | ShiftLeft(b as bv32, k)
  }

  lemma AbsorbFirst(c: bv8)
    ensures Absorb(0, c, 16) == Word(c, 0, 0)
  {
  }

  lemma AbsorbSecond(c0: bv8, c: bv8)
    ensures Absorb(Word(c0, 0, 0), c, 8) == Word(c0, c, 0)
  {
  }

  lemma AbsorbThird(c0: bv8, c1: bv8, c: bv8)
    ensures Absorb(Word(c0, c1, 0), c, 0) == Word(c0, c1, c)
  {
  }

  lemma ByteStreamStep(b: seq<bv8>, k: nat)
    requires k < |b|
    ensures ByteStream(b[k..]) == Bits8(b[k]) + ByteStream(b[k + 1..])
  {
    hide Bits8;
    assert b[k..][1..] == b[k + 1..];
  }

  lemma ByteStream3(b: seq<bv8>)
    requires |b| >= 3
    ensures ByteStream(b) == Bits8(b[0]) + Bits8(b[1]) + Bits8(b[2]) + ByteStream(b[3..])
  {
    hide *;
    ByteStreamStep(b, 0);
    ByteStreamStep(b, 1);
    ByteStreamStep(b, 2);
    assert b[0..] == b;
    Sequences.Chain(ByteStream(b), ByteStream(b[1..]), ByteStream(b[2..]), ByteStream(b[3..]),
                    Bits8(b[0]), Bits8(b[1]), Bits8(b[2]));
  }

  /** What one chunk contributes to the sextets of the whole input. */
  lemma ChunkStep(bytes: seq<bv8>, chunk: seq<bv8>, rest: seq<bv8>)
    requires bytes == chunk + rest && (|chunk| == 3 || (1 <= |chunk| < 3 && rest == []))
    ensures Group6(ByteStream(bytes)) == WordSextetSeq(chunk)[..|chunk| + 1] + Group6(ByteStream(rest))
  {
    hide Bits8, Group6, WordSextetSeq;
    if |chunk| == 3 {
      assert bytes[1..] == chunk[1..] + rest && bytes[2..] == chunk[2..] + rest && bytes[3..] == rest;
      assert bytes[1..][1..] == bytes[2..] && bytes[2..][1..] == bytes[3..];
      FullGroup(chunk, ByteStream(rest));
      ByteStream3(bytes);
    } else if |chunk| == 2 {
      TwoByteGroup(chunk);
      assert bytes == chunk;
      assert bytes[1..] == [chunk[1]] && bytes[1..][1..] == [];
      assert ByteStream(bytes) == Bits8(chunk[0]) + Bits8(chunk[1]);
      EmptyGroup();
    } else {
      OneByteGroup(chunk);
      assert bytes == chunk;
      assert bytes[1..] == [];
      assert ByteStream(bytes) == Bits8(chunk[0]);
      EmptyGroup();
    }
  }

  lemma EncodeDefinition(b: seq<bv8>)
    ensures "" + Symbols(Group6(ByteStream(b))) == Encode(b)
  {
  }

  lemma EncodeNothing()
    ensures Symbols(Group6(ByteStream([]))) == ""
  {
    EmptyGroup();
  }

  lemma EmptyGroup()
    ensures Group6(ByteStream([])) == []
  {
  }

  lemma SymbolsConcat(v: seq<bv6>, w: seq<bv6>)
    ensures Symbols(v + w) == Symbols(v) + Symbols(w)
  {
    hide Symbol;
  }

  method Base64UrlEncode(bytes: seq<bv8>) returns (result: string)
    ensures result == Encode(bytes)
  {
    hide *;
    result := "";
    var start := 0;
    assert bytes[start..] == bytes;
    assert result + Symbols(Group6(ByteStream(bytes))) == Encode(bytes) by { EncodeDefinition(bytes); }
    while start < |bytes|
      invariant start <= |bytes|
      invariant result + Symbols(Group6(ByteStream(bytes[start..]))) == Encode(bytes)
    {
      var end := if start + 3 <= |bytes| then start + 3 else |bytes|;
      var chunk := bytes[start..end];
      var n := ChunkWordByLoop(chunk);
      // Number of output characters for the chunk's length.
      var chars := match |chunk|
        case 3 => 4
        case 2 => 3
        case _ => 2;
      var symbols := WordSymbols(chunk, n, chars);
      result := result + symbols;
      ghost var sextets := WordSextetSeq(chunk)[..chars];
      assert bytes[start..] == chunk + bytes[end..];
      ChunkStep(bytes[start..], chunk, bytes[end..]);
      SymbolsConcat(sextets, Group6(ByteStream(bytes[end..])));
      start := end;
    }
    assert bytes[start..] == [];
    EncodeNothing();
  }

  lemma SextetSymbol(chunk: seq<bv8>, i: nat, idx: bv6)
    requires i < 4 && idx == (ShiftRight(ChunkWord(chunk), 18 - i * 6) & 0x3F) as bv6
    ensures WordSextetSeq(chunk)[i] == idx
    ensures |ALPHABET| == 64 && [ALPHABET[idx as int]] == Symbols([idx])
  {
    hide ShiftRight, ChunkWord;
    AlphabetCodes(0);
  }

  /** The inner loop that pushes the characters of one chunk. */
  method WordSymbols(ghost chunk: seq<bv8>, n: bv32, chars: nat) returns (result: string)
    requires n == ChunkWord(chunk) && chars <= 4
    ensures result == Symbols(WordSextetSeq(chunk)[..chars])
  {
    hide Symbol, ShiftRight, ChunkWord, ALPHABET, WordSextetSeq;
    result := "";
    ghost var sextets := WordSextetSeq(chunk);
    var i := 0;
    while i < chars
      invariant 0 <= i <= chars
      invariant result == Symbols(sextets[..i])
    {
      var idx := (ShiftRight(n, 18 - i * 6) & 0x3F) as bv6;
      SextetSymbol(chunk, i, idx);
      result := result + [ALPHABET[idx as int]];
      assert sextets[..i + 1] == sextets[..i] + [sextets[i]];
      SymbolsConcat(sextets[..i], [sextets[i]]);
      i := i + 1;
    }
  }

  /** The inner loop that packs one chunk into the 24-bit word. */
  method ChunkWordByLoop(chunk: seq<bv8>) returns (n: bv32)
    requires 0 < |chunk| <= 3
    ensures n == ChunkWord(chunk)
  {
    hide Absorb, Word;
    n := 0;
    var i := 0;
    while i < |chunk|
      invariant 0 <= i <= |chunk|
      invariant match i
                case 0 => n == 0
                case 1 => n == Word(chunk[0], 0, 0)
                case 2 => n == Word(chunk[0], chunk[1], 0)
                case _ => n == Word(chunk[0], chunk[1], chunk[2])
    {
      AbsorbFirst(chunk[0]);
      AbsorbSecond(chunk[0], ByteOrZero(chunk, 1));
      AbsorbThird(chunk[0], ByteOrZero(chunk, 1), ByteOrZero(chunk, 2));
      n := Absorb(n, chunk[i], 16 - i * 8);
      i := i + 1;
    }
  }

  // ---------- the decoder's loops ----------

  /** The compile-time table: 256 signed entries, -1 for bytes outside the alphabet. */
  method BuildDecodeTable() returns (table: seq<int>)
    ensures |table| == 256
    ensures forall c: char :: c as int < 256 ==> table[c as int] == IndexOf(c)
  {
    table := seq(256, _ => -1);
    var i := 0;
    while i < |ALPHABET|
      invariant 0 <= i <= |ALPHABET| && |table| == 256
      invariant forall c: char :: c as int < 256 ==> table[c as int] == if IndexOf(c) < i then IndexOf(c) else -1
    {
      AlphabetInverse(i);
      forall c: char | IndexOf(c) == i
        ensures c == ALPHABET[i]
      {
        AlphabetContains(c);
      }
      AlphabetCodes(i);
      table := table[ALPHABET[i] as int := i];
      i := i + 1;
    }
    AlphabetCodes(0);
  }

  /** The low `k` bits of a sextet: what the accumulator still owes to the output. */
  function Pending(v: bv6, k: nat): Bits
    requires k <= 6
  {
    Bits6(v)[6 - k..]
  }

  /** The source's `(buffer << 6) | value`, which drops the bits pushed past the 32nd. */
  function Accumulate(buffer: bv32, value: bv6): bv32 {
    (buffer << 6) | value as bv32
  }

  /** The source's `(buffer >> bits) as u8`. */
  function LowByte(buffer: bv32, bits: nat): bv8
    requires bits <= 32
  {
    (ShiftRight(buffer, bits) & 0xFF) as bv8
  }

  ghost predicate LastValue(buffer: bv32, v: bv6) {
    buffer & 0x3F == v as bv32
  }

  /** The accumulator overflows, but its low six bits are always the last value read. */
  lemma AccumulatorStep(buffer: bv32, p: bv6, v: bv6)
    requires LastValue(buffer, p)
    ensures var next := Accumulate(buffer, v);
            && LastValue(next, v)
            && LowByte(next, 4) == Joined(p, v, 4)
            && LowByte(next, 2) == Joined(p, v, 2)
            && LowByte(next, 0) == Joined(p, v, 0)
  {
  }

  /** The byte ending k bits before the end of the two sextets p, v. */
  function Joined(p: bv6, v: bv6, k: nat): bv8
    requires k == 0 || k == 2 || k == 4
  {
    if k == 4 then (p as bv8 << 2) | (v as bv8 >> 4)
    else if k == 2 then (p as bv8 << 4) | (v as bv8 >> 2)
    else (p as bv8 << 6) | v as bv8
  }

  lemma JoinedBits4(p: bv6, v: bv6)
    ensures var a, b := Bits6(p), Bits6(v);
            Bits8(Joined(p, v, 4)) == [a[0], a[1], a[2], a[3], a[4], a[5], b[0], b[1]]
  {
  }

  lemma JoinedBits2(p: bv6, v: bv6)
    ensures var a, b := Bits6(p), Bits6(v);
            Bits8(Joined(p, v, 2)) == [a[2], a[3], a[4], a[5], b[0], b[1], b[2], b[3]]
  {
  }

  lemma JoinedBits0(p: bv6, v: bv6)
    ensures var a, b := Bits6(p), Bits6(v);
            Bits8(Joined(p, v, 0)) == [a[4], a[5], b[0], b[1], b[2], b[3], b[4], b[5]]
  {
  }

  lemma JoinedBits(p: bv6, v: bv6, k: nat)
    requires k == 0 || k == 2 || k == 4
    ensures Bits8(Joined(p, v, k)) == Pending(p, k + 2) + Bits6(v)[..6 - k]
  {
    hide Bits8, Bits6, Joined;
    var a, b := Bits6(p), Bits6(v);
    if k == 4 {
      JoinedBits4(p, v);
      assert a[0..] + b[..2] == [a[0], a[1], a[2], a[3], a[4], a[5], b[0], b[1]];
    } else if k == 2 {
      JoinedBits2(p, v);
      assert a[2..] + b[..4] == [a[2], a[3], a[4], a[5], b[0], b[1], b[2], b[3]];
    } else {
      JoinedBits0(p, v);
      assert a[4..] + b[..6] == [a[4], a[5], b[0], b[1], b[2], b[3], b[4], b[5]];
    }
  }

  lemma Group8Step(head: Bits, byte: bv8, rest: Bits)
    requires Bits8(byte) == head
    ensures Group8(head + rest) == [byte] + Group8(rest)
  {
    hide Bits8, Pack8;
    var bits := head + rest;
    assert bits[..8] == head && bits[8..] == rest;
    Pack8Bits(head);
    Bits8Injective(Pack8(head), byte);
  }

  lemma PendingByte(p: bv6, v: bv6, k: nat, rest: Bits)
    requires k == 0 || k == 2 || k == 4
    ensures Group8(Pending(p, k + 2) + (Bits6(v) + rest)) == [Joined(p, v, k)] + Group8(Pending(v, k) + rest)
  {
    assert Pending(v, k) == Bits6(v)[6 - k..];
    hide *;
    JoinedBits(p, v, k);
    Sequences.Regroup(Pending(p, k + 2), Bits6(v), rest, 6 - k);
    Group8Step(Pending(p, k + 2) + Bits6(v)[..6 - k], Joined(p, v, k), Pending(v, k) + rest);
  }

  lemma ValuesStep(input: string, i: nat)
    requires i < |input| && OverAlphabet(input[i..])
    ensures OverAlphabet(input[i + 1..])
    ensures SextetStream(Values(input[i..])) == Bits6(ValueOf(input[i])) + SextetStream(Values(input[i + 1..]))
  {
    hide ValueOf, Bits6;
    assert input[i..][1..] == input[i + 1..];
    assert Values(input[i..])[1..] == Values(input[i + 1..]);
  }

  lemma DecodeNothing()
    ensures OverAlphabet([])
  {
  }

  lemma ShortTail(v: bv6, k: nat)
    requires k <= 6
    ensures Group8(Pending(v, k) + SextetStream(Values([]))) == []
  {
  }

  lemma NoPending(v: bv6, bits: Bits)
    ensures Pending(v, 0) + bits == bits
  {
  }

  /** A sextet that completes no byte stays pending whole. */
  lemma WholePending(p: bv6, v: bv6, rest: Bits)
    ensures Pending(p, 0) + (Bits6(v) + rest) == Pending(v, 6) + rest
  {
    hide Bits6;
  }

  method Base64UrlDecode(input: string) returns (r: Result<seq<bv8>, string>)
    ensures r == Decode(input)
  {
    hide *;
    var table := BuildDecodeTable();
    var result: seq<bv8> := [];
    var buffer: bv32 := 0;
    var bits := 0;
    var i := 0;
    // The last value read: the accumulator's low six bits.
    ghost var last: bv6 := 0;
    assert input[i..] == input;
    assert LastValue(0, 0) by { FreshAccumulator(); }
    DecodeStart(input, last);
    while i < |input|
      invariant 0 <= i <= |input|
      invariant bits == 0 || bits == 2 || bits == 4 || bits == 6
      invariant LastValue(buffer, last)
      invariant OverAlphabet(input[i..]) == OverAlphabet(input)
      invariant OverAlphabet(input) ==>
                  Decode(input) == Ok(result + Group8(Pending(last, bits) + SextetStream(Values(input[i..]))))
    {
      var c := input[i];
      // A character past U+007F is several bytes of at least 0x80, all mapped to -1.
      var value := if c as int < 128 then table[c as int] else -1;
      TableValue(c, value, table);
      AlphabetSuffix(input, i);
      if value < 0 {
        DecodeFails(input);
        return Err("invalid base64 character");
      }
      ghost var rest := if OverAlphabet(input) then SextetStream(Values(input[i + 1..])) else [];
      if OverAlphabet(input) {
        ValuesStep(input, i);
      }
      AccumulatorStep(buffer, last, value as bv6);
      buffer := Accumulate(buffer, value as bv6);
      bits := bits + 6;
      if bits >= 8 {
        bits := bits - 8;
        PendingByte(last, ValueOf(c), bits, rest);
        Reassociate(result, LowByte(buffer, bits), Group8(Pending(ValueOf(c), bits) + rest));
        result := result + [LowByte(buffer, bits)];
      } else {
        WholePending(last, ValueOf(c), rest);
      }
      last := ValueOf(c);
      i := i + 1;
    }
    assert input[i..] == [];
    DecodeNothing();
    ShortTail(last, bits);
    assert result + [] == result;
    r := Ok(result);
  }

  lemma Reassociate(a: seq<bv8>, b: bv8, c: seq<bv8>)
    ensures a + ([b] + c) == (a + [b]) + c
  {
  }

  lemma FreshAccumulator()
    ensures LastValue(0, 0)
  {
  }

  lemma DecodeStart(input: string, last: bv6)
    ensures OverAlphabet(input) ==> Decode(input) == Ok([] + Group8(Pending(last, 0) + SextetStream(Values(input))))
  {
    if OverAlphabet(input) {
      hide Group8, Pending;
      NoPending(last, SextetStream(Values(input)));
      assert [] + Group8(SextetStream(Values(input))) == Group8(SextetStream(Values(input)));
    }
  }

  lemma DecodeFails(input: string)
    requires !OverAlphabet(input)
    ensures Decode(input) == Err("invalid base64 character")
  {
  }

  lemma TableValue(c: char, value: int, table: seq<int>)
    requires |table| == 256 && forall d: char :: d as int < 256 ==> table[d as int] == IndexOf(d)
    requires value == if c as int < 128 then table[c as int] else -1
    ensures value == IndexOf(c)
    ensures value >= 0 ==> value as bv6 == ValueOf(c)
  {
  }

  lemma AlphabetSuffix(input: string, i: nat)
    requires i < |input|
    ensures OverAlphabet(input[i..]) <==> IndexOf(input[i]) >= 0 && OverAlphabet(input[i + 1..])
  {
    var s, t := input[i..], input[i + 1..];
    assert s[0] == input[i] && s[1..] == t;
    assert forall k :: 0 <= k < |t| ==> t[k] == s[1..][k] == s[k + 1];
    assert OverAlphabet(s) ==> OverAlphabet(s[1..]);
  }
}
