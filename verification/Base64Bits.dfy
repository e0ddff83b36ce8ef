/** What decoding yields on every string, well-formed or not: the bits of its letters. */
module Base64Bits {
  import opened Base64

  /** The six bits of a value, most significant first. */
  function SixBits(v: Byte): (r: seq<bool>)
    ensures |r| == 6
  {
    [v & 0x20 != 0, v & 0x10 != 0, v & 0x08 != 0, v & 0x04 != 0, v & 0x02 != 0, v & 0x01 != 0]
  }

  function ValueBits(xs: seq<Symbol>): seq<bool> {
    if xs == [] then [] else (if xs[0].Value? then SixBits(xs[0].v) else []) + ValueBits(xs[1..])
  }

  /** Reading stops at e: at the end, or at the first '=' in the third or fourth place of a
      group of four. */
  predicate StopsAt(s: string, e: nat) {
    && e <= |s| && (e < |s| ==> s[e] == '=' && e % 4 >= 2)
    && forall i :: 0 <= i < e && i % 4 >= 2 ==> s[i] != '='
  }

  lemma {:induction false} SomeStop(s: string) returns (e: nat)
    ensures StopsAt(s, e)
  {
    if s == "" {
      e := 0;
    } else {
      e := SomeStop(s[..|s| - 1]);
      if e == |s| - 1 && !(s[e] == '=' && e % 4 >= 2) { e := |s|; }
    }
  }

  // ------------------------------------------------------------------------- one group

  lemma FirstBits(p: Byte, q: Byte)
    requires p < 64 && q < 64
    ensures BitsOf(Byte1(p, q)) == SixBits(p) + SixBits(q)[..2]
  {
  }

  lemma SecondHigh(q: Byte, r: Byte)
    requires q < 64 && r < 64
    ensures BitsOf(Byte2(q, r))[..4] == SixBits(q)[2..]
  {
  }

  lemma SecondLow(q: Byte, r: Byte)
    requires q < 64 && r < 64
    ensures BitsOf(Byte2(q, r))[4..] == SixBits(r)[..4]
  {
  }

  lemma SecondBits(q: Byte, r: Byte)
    requires q < 64 && r < 64
    ensures BitsOf(Byte2(q, r)) == SixBits(q)[2..] + SixBits(r)[..4]
  {
    hide BitsOf, SixBits, Byte2;
    SecondHigh(q, r);
    SecondLow(q, r);
    assert BitsOf(Byte2(q, r)) == BitsOf(Byte2(q, r))[..4] + BitsOf(Byte2(q, r))[4..];
  }

  lemma ThirdBits(r: Byte, t: Byte)
    requires r < 64 && t < 64
    ensures BitsOf(Byte3(r, t)) == SixBits(r)[4..] + SixBits(t)
  {
  }

  lemma GroupBits(p: Byte, q: Byte, r: Byte, t: Byte)
    requires p < 64 && q < 64 && r < 64 && t < 64
    ensures BitsOf(Byte1(p, q)) + BitsOf(Byte2(q, r)) + BitsOf(Byte3(r, t))
         == SixBits(p) + SixBits(q) + SixBits(r) + SixBits(t)
  {
    FirstBits(p, q);
    SecondBits(q, r);
    ThirdBits(r, t);
    hide BitsOf, SixBits, Byte1, Byte2, Byte3;
  }

  lemma ShortBits(p: Byte, q: Byte, r: Byte)
    requires p < 64 && q < 64 && r < 64
    ensures BitsOf(Byte1(p, q)) == (SixBits(p) + SixBits(q))[..8]
    ensures BitsOf(Byte1(p, q)) + BitsOf(Byte2(q, r)) == (SixBits(p) + SixBits(q) + SixBits(r))[..16]
  {
    hide BitsOf, SixBits, Byte1, Byte2;
    FirstBits(p, q);
    SecondBits(q, r);
    Cuts(SixBits(p), SixBits(q), SixBits(r));
  }

  lemma Cuts(a: seq<bool>, b: seq<bool>, c: seq<bool>)
    requires |a| == |b| == |c| == 6
    ensures (a + b)[..8] == a + b[..2]
    ensures (a + b + c)[..16] == (a + b[..2]) + (b[2..] + c[..4])
  {
  }

  lemma ValueBitsNext(xs: seq<Symbol>)
    requires xs != [] && xs[0].Value?
    ensures ValueBits(xs) == SixBits(xs[0].v) + ValueBits(xs[1..])
  {
  }

  lemma ValueBitsTwo(xs: seq<Symbol>)
    requires |xs| >= 2 && xs[0].Value? && xs[1].Value?
    ensures ValueBits(xs) == SixBits(xs[0].v) + SixBits(xs[1].v) + ValueBits(xs[2..])
  {
    hide ValueBits, SixBits;
    ValueBitsNext(xs);
    ValueBitsNext(xs[1..]);
    assert xs[1..][1..] == xs[2..];
  }

  lemma ValueBitsFour(xs: seq<Symbol>)
    requires |xs| >= 4 && forall i :: 0 <= i < 4 ==> xs[i].Value?
    ensures ValueBits(xs)
         == (SixBits(xs[0].v) + SixBits(xs[1].v) + SixBits(xs[2].v) + SixBits(xs[3].v)) + ValueBits(xs[4..])
  {
    hide ValueBits, SixBits;
    ValueBitsTwo(xs);
    var rest := xs[2..];
    ValueBitsTwo(rest);
    assert rest[0] == xs[2] && rest[1] == xs[3] && rest[2..] == xs[4..];
    Reassociate(SixBits(xs[0].v) + SixBits(xs[1].v), SixBits(xs[2].v), SixBits(xs[3].v), ValueBits(xs[4..]));
  }

  lemma {:induction false} ValueBitsLength(xs: seq<Symbol>)
    requires forall i :: 0 <= i < |xs| ==> xs[i].Value?
    ensures |ValueBits(xs)| == 6 * |xs|
  {
    if xs != [] { ValueBitsLength(xs[1..]); }
  }

  // ------------------------------------------------------------------------ all groups

  predicate Read(xs: seq<Symbol>, e: nat) {
    && e <= |xs| && (e < |xs| ==> xs[e] == Fill && e % 4 >= 2)
    && (forall i :: 0 <= i < e && i % 4 >= 2 ==> xs[i] != Fill)
    && (forall i :: 0 <= i < |xs| ==> xs[i].Value? ==> xs[i].v < 64)
  }

  predicate AllValues(xs: seq<Symbol>, e: nat)
    requires e <= |xs|
  {
    forall i :: 0 <= i < e ==> xs[i].Value?
  }

  /** The bytes are the first bits of the values, as many as fill whole bytes. */
  predicate BytesOf(data: seq<Byte>, xs: seq<Symbol>, e: nat)
    requires e <= |xs|
  {
    && |data| == 3 * e / 4
    && 8 * |data| <= |ValueBits(xs[..e])|
    && Bits(data) == ValueBits(xs[..e])[..8 * |data|]
  }

  lemma LastTwo(xs: seq<Symbol>, p: Byte, q: Byte)
    requires |xs| >= 2 && xs[0] == Value(p) && xs[1] == Value(q) && p < 64 && q < 64
    ensures BytesOf([Byte1(p, q)], xs, 2)
  {
    ShortBits(p, q, 0);
    hide SixBits, BitsOf, Byte1, Byte2, ValueBits;
    var two := xs[..2];
    ValueBitsTwo(two);
    EmptyBits(two[2..]);
    FlatShort([Byte1(p, q)], BitsOf);
  }

  lemma EmptyBits(xs: seq<Symbol>)
    requires |xs| == 0
    ensures ValueBits(xs) == []
  {
  }

  lemma LastThree(xs: seq<Symbol>, p: Byte, q: Byte, r: Byte)
    requires |xs| >= 3 && xs[0] == Value(p) && xs[1] == Value(q) && xs[2] == Value(r) && p < 64 && q < 64 && r < 64
    ensures BytesOf([Byte1(p, q), Byte2(q, r)], xs, 3)
  {
    ShortBits(p, q, r);
    hide SixBits, BitsOf, Byte1, Byte2, ValueBits;
    var three := xs[..3];
    ValueBitsTwo(three);
    ValueBitsNext(three[2..]);
    EmptyBits(three[2..][1..]);
    FlatShort([Byte1(p, q), Byte2(q, r)], BitsOf);
  }

  lemma LastGroup(xs: seq<Symbol>, e: nat)
    requires Read(xs, e) && e < 4
    ensures Ungrouped(xs).Bytes? <==> e != 1 && AllValues(xs, e)
    ensures Ungrouped(xs).Bytes? ==> BytesOf(Ungrouped(xs).value, xs, e)
  {
    hide Byte1, Byte2, Byte3, SixBits, BitsOf;
    if e == 0 {
      assert xs == [];
    } else if e != 1 && AllValues(xs, e) {
      hide BytesOf;
      if e == 2 { LastTwo(xs, xs[0].v, xs[1].v); } else { LastThree(xs, xs[0].v, xs[1].v, xs[2].v); }
    }
  }

  /** Four values off the front. */
  lemma FirstFour(xs: seq<Symbol>, e: nat, rest: seq<Byte>)
    requires 4 <= e <= |xs| && AllValues(xs, 4) && (forall i :: 0 <= i < 4 ==> xs[i].v < 64)
    requires BytesOf(rest, xs[4..], e - 4)
    ensures var p, q, r, t := xs[0].v, xs[1].v, xs[2].v, xs[3].v;
      BytesOf([Byte1(p, q), Byte2(q, r), Byte3(r, t)] + rest, xs, e)
  {
    var p, q, r, t := xs[0].v, xs[1].v, xs[2].v, xs[3].v;
    var data := [Byte1(p, q), Byte2(q, r), Byte3(r, t)] + rest;
    GroupBits(p, q, r, t);
    hide SixBits, BitsOf, Byte1, Byte2, Byte3, ValueBits;
    ValueBitsFour(xs[..e]);
    assert xs[..e][4..] == xs[4..][..e - 4];
    FlatThree(data, BitsOf);
    assert data[3..] == rest;
    Front(SixBits(p) + SixBits(q) + SixBits(r) + SixBits(t), ValueBits(xs[4..][..e - 4]), 8 * |rest|);
  }

  lemma Front(a: seq<bool>, b: seq<bool>, n: nat)
    requires |a| == 24 && n <= |b|
    ensures a + b[..n] == (a + b)[..24 + n]
  {
  }

  lemma {:induction false} UngroupedExactly(xs: seq<Symbol>, e: nat)
    requires Read(xs, e)
    ensures Ungrouped(xs).Bytes? <==> e % 4 != 1 && AllValues(xs, e)
    ensures Ungrouped(xs).Bytes? ==> BytesOf(Ungrouped(xs).value, xs, e)
  {
    if e < 4 {
      LastGroup(xs, e);
    } else {
      ReadOn(xs, e);
      UngroupedExactly(xs[4..], e - 4);
      AllOfFour(xs, e);
      hide BytesOf, Byte1, Byte2, Byte3;
      if AllValues(xs, 4) {
        var rest := Ungrouped(xs[4..]);
        UngroupFull(xs, Byte1(xs[0].v, xs[1].v), Byte2(xs[1].v, xs[2].v), Byte3(xs[2].v, xs[3].v));
        if rest.Bytes? { FirstFour(xs, e, rest.value); }
      } else {
        NotFour(xs);
      }
    }
  }

  lemma ReadOn(xs: seq<Symbol>, e: nat)
    requires Read(xs, e) && e >= 4
    ensures Read(xs[4..], e - 4) && xs[2] != Fill && xs[3] != Fill
  {
    forall i | 0 <= i < e - 4 && i % 4 >= 2 ensures xs[4..][i] != Fill { assert xs[4..][i] == xs[i + 4]; }
  }

  lemma AllOfFour(xs: seq<Symbol>, e: nat)
    requires 4 <= e <= |xs|
    ensures AllValues(xs, e) <==> AllValues(xs, 4) && AllValues(xs[4..], e - 4)
  {
    if AllValues(xs, 4) && AllValues(xs[4..], e - 4) {
      forall i | 0 <= i < e ensures xs[i].Value? { if i >= 4 { assert xs[4..][i - 4].Value?; } }
    }
  }

  lemma NotFour(xs: seq<Symbol>)
    requires |xs| >= 4 && xs[2] != Fill && xs[3] != Fill && !AllValues(xs, 4)
    ensures Ungrouped(xs) == Invalid
  {
  }

  /** Decoding on every string: it is accepted exactly when all that is read are letters and
      the last group has not just one; then the bytes are the first bits of the letters. */
  lemma DecodedExactly(s: string, e: nat)
    requires StopsAt(s, e)
    ensures Decoded(s).Bytes? <==> e % 4 != 1 && forall i :: 0 <= i < e ==> Symbols(s)[i].Value?
    ensures Decoded(s).Bytes? ==>
      var data, bits := Decoded(s).value, ValueBits(Symbols(s)[..e]);
      |data| == 3 * e / 4 && 8 * |data| <= |bits| && Bits(data) == bits[..8 * |data|]
  {
    var xs := Symbols(s);
    StopsRead(s, e);
    hide Ungrouped, Symbols;
    UngroupedExactly(xs, e);
  }

  lemma StopsRead(s: string, e: nat)
    requires StopsAt(s, e)
    ensures Read(Symbols(s), e)
  {
    forall i | 0 <= i < |s| ensures SymbolOf(s[i]) == Fill <==> s[i] == '=' { ReadAsLetters(s[i], Fill); }
    hide SymbolOf;
  }
}
