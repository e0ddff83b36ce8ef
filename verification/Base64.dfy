/** wxBase64::Encode and wxBase64::Decode over bytes. The bit arithmetic is done on
    symbols (a six-bit value, or the fill character); letters only stand for them. */
module Base64 {

  type Byte = bv8

  // -------------------------------------------------------------------- letters

  const FILL := '='
  const UPPER := "ABCDEFGHIJKLMNOPQRSTUVWXYZ"
  const LOWER := "abcdefghijklmnopqrstuvwxyz"
  const OTHER := "0123456789+/"
  const CVT := UPPER + LOWER + OTHER

  /** cvt.Find(c): the first index of c, or -1. */
  function FindFrom(c: char, i: nat): (r: int)
    requires i <= |CVT|
    ensures -1 <= r < |CVT| && (r >= 0 ==> r >= i && CVT[r] == c)
    ensures r < 0 ==> forall k :: i <= k < |CVT| ==> CVT[k] != c
    decreases |CVT| - i
  {
    if i == |CVT| then -1 else if CVT[i] == c then i else FindFrom(c, i + 1)
  }

  datatype Symbol = Value(v: Byte) | Fill | Bad

  predicate Proper(x: Symbol) { x == Fill || (x.Value? && x.v < 64) }

  function SymbolOf(c: char): (x: Symbol)
    ensures x == Bad || Proper(x)
  {
    if c == FILL then Fill
    else var k := FindFrom(c, 0);
         if k < 0 then Bad else ByteBack(k); ByteSmall(k as Byte); Value(k as Byte)
  }

  function LetterOf(x: Symbol): char
    requires Proper(x)
  {
    if x == Fill then FILL else CVT[x.v as int]
  }

  lemma UpperAt(i: nat)
    requires i < 26
    ensures UPPER[i] as int == i + 65
  {
  }

  lemma LowerAt(i: nat)
    requires i < 26
    ensures LOWER[i] as int == i + 97
  {
  }

  lemma OtherAt(i: nat)
    requires i < 12
    ensures OTHER[i] as int == if i < 10 then i + 48 else if i == 10 then 43 else 47
  {
  }

  lemma CvtAt(i: nat)
    requires i < 64
    ensures CVT[i] as int == if i < 26 then i + 65 else if i < 52 then i + 71 else if i < 62 then i - 4
                             else if i == 62 then 43 else 47
  {
    if i < 26 { UpperAt(i); } else if i < 52 { LowerAt(i - 26); } else { OtherAt(i - 52); }
  }

  lemma IntBack(v: Byte)
    requires v < 64
    ensures v as int < 64 && (v as int) as Byte == v
  {
  }

  lemma ByteBack(k: nat)
    requires k < 64
    ensures (k as Byte) as int == k
  {
  }

  lemma ByteSmall(v: Byte)
    requires v as int < 64
    ensures v < 64
  {
  }

  /** The table has no letter twice. */
  lemma CvtFound(k: nat)
    requires k < 64
    ensures FindFrom(CVT[k], 0) == k
  {
    CvtAt(k);
    var j := FindFrom(CVT[k], 0);
    if j >= 0 { CvtAt(j); }
  }

  /** Every symbol has its own letter. */
  lemma SymbolBack(x: Symbol)
    requires Proper(x)
    ensures SymbolOf(LetterOf(x)) == x
  {
    if x.Value? {
      IntBack(x.v);
      CvtFound(x.v as int);
      CvtAt(x.v as int);
    }
  }

  lemma LetterBack(c: char)
    requires SymbolOf(c) != Bad
    ensures LetterOf(SymbolOf(c)) == c
  {
    if c != FILL { ByteBack(FindFrom(c, 0)); }
  }

  function Text(xs: seq<Symbol>): (s: string)
    requires forall i :: 0 <= i < |xs| ==> Proper(xs[i])
    ensures |s| == |xs|
  {
    seq(|xs|, i requires 0 <= i < |xs| => LetterOf(xs[i]))
  }

  function Symbols(s: string): (xs: seq<Symbol>)
    ensures |xs| == |s| && forall i :: 0 <= i < |xs| ==> xs[i] == SymbolOf(s[i])
  {
    seq(|s|, i requires 0 <= i < |s| => SymbolOf(s[i]))
  }

  lemma SymbolsText(xs: seq<Symbol>)
    requires forall i :: 0 <= i < |xs| ==> Proper(xs[i])
    ensures Symbols(Text(xs)) == xs
  {
    forall i | 0 <= i < |xs| ensures SymbolOf(Text(xs)[i]) == xs[i] { SymbolBack(xs[i]); }
  }

  lemma TextSymbols(s: string)
    requires forall i :: 0 <= i < |s| ==> SymbolOf(s[i]) != Bad
    ensures Text(Symbols(s)) == s
  {
    forall i | 0 <= i < |s| ensures LetterOf(SymbolOf(s[i])) == s[i] { LetterBack(s[i]); }
  }

  // ------------------------------------------------------------------- encoding

  /** The four sextets of up to three bytes, as the shifts and masks make them. */
  function First(a: Byte): Byte { (a >> 2) & 0x3f }
  function Second(a: Byte, b: Byte): Byte { ((a << 4) & 0x3f) | ((b >> 4) & 0x0f) }
  function Third(b: Byte, c: Byte): Byte { ((b << 2) & 0x3f) | ((c >> 6) & 0x03) }
  function Fourth(c: Byte): Byte { c & 0x3f }

  lemma Sextets(a: Byte, b: Byte, c: Byte)
    ensures First(a) < 64 && Second(a, b) < 64 && Third(b, c) < 64 && Fourth(c) < 64
  {
  }

  function Group(a: Byte, b: Byte, c: Byte): (g: seq<Symbol>)
    ensures |g| == 4 && forall i :: 0 <= i < 4 ==> Proper(g[i])
  {
    Sextets(a, b, c);
    [Value(First(a)), Value(Second(a, b)), Value(Third(b, c)), Value(Fourth(c))]
  }

  function Grouped(data: seq<Byte>): (xs: seq<Symbol>)
    ensures forall i :: 0 <= i < |xs| ==> Proper(xs[i])
  {
    if data == [] then []
    else if |data| == 1 then Group(data[0], 0, 0)[..2] + [Fill, Fill]
    else if |data| == 2 then Group(data[0], data[1], 0)[..3] + [Fill]
    else Group(data[0], data[1], data[2]) + Grouped(data[3..])
  }

  function Encoded(data: seq<Byte>): string { Text(Grouped(data)) }

  /** The second, third and fourth sextets when bytes are missing. */
  method SecondSextet(data: seq<Byte>, i: nat) returns (c: Byte)
    requires i < |data|
    ensures c == Second(data[i], if i + 1 < |data| then data[i + 1] else 0)
  {
    c := (data[i] << 4) & 0x3f;
    if i + 1 < |data| { c := c | ((data[i + 1] >> 4) & 0x0f); }
  }

  method ThirdSextet(data: seq<Byte>, i: nat) returns (c: Byte)
    requires i < |data|
    ensures c == Third(data[i], if i + 1 < |data| then data[i + 1] else 0)
  {
    c := (data[i] << 2) & 0x3f;
    if i + 1 < |data| { c := c | ((data[i + 1] >> 6) & 0x03); }
  }

  /** The loop body's four appends, for the bytes from start on; i ends as in the loop. */
  method EncodeGroup(data: seq<Byte>, start: nat) returns (xs: seq<Symbol>, i: nat)
    requires start < |data|
    ensures i == start + 2
    ensures |Grouped(data[start..])| >= 4 && xs == Grouped(data[start..])[..4]
  {
    var len := |data|;
    ghost var rest := data[start..];
    i := start;
    xs := [Value(First(data[i]))];
    var c := SecondSextet(data, i);
    xs := xs + [Value(c)];
    i := i + 1;
    if i < len {
      c := ThirdSextet(data, i);
      xs := xs + [Value(c)];
      i := i + 1;
    } else {
      i := i + 1;
      xs := xs + [Fill];
    }
    xs := xs + [if i < len then Value(Fourth(data[i])) else Fill];
    GroupedHead(rest);
  }

  lemma GroupedHead(rest: seq<Byte>)
    requires rest != []
    ensures |Grouped(rest)| >= 4
    ensures var b, c := if |rest| > 1 then rest[1] else 0, if |rest| > 2 then rest[2] else 0;
      Grouped(rest)[..4] == [Value(First(rest[0])), Value(Second(rest[0], b)),
                             if |rest| > 1 then Value(Third(b, c)) else Fill,
                             if |rest| > 2 then Value(Fourth(c)) else Fill]
  {
    if |rest| > 2 { assert Grouped(rest) == Group(rest[0], rest[1], rest[2]) + Grouped(rest[3..]); }
  }

  method Encode(data: seq<Byte>) returns (ret: string)
    ensures ret == Encoded(data)
  {
    assert data[0..] == data && Encoded([]) == "";
    hide Encoded, Grouped, Text;
    ret := "";
    var i := 0;
    while i < |data|
      invariant i < |data| ==> ret + Encoded(data[i..]) == Encoded(data)
      invariant i >= |data| ==> ret == Encoded(data)
    {
      ghost var start, before := i, ret;
      var xs;
      xs, i := EncodeGroup(data, i);
      GroupFits(data[start..], xs);
      ret := ret + Text(xs);
      i := i + 1;
      Onwards(data, start, before, Text(xs));
    }
  }

  lemma Onwards(data: seq<Byte>, start: nat, before: string, text: string)
    requires start < |data| && before + Encoded(data[start..]) == Encoded(data)
    requires Encoded(data[start..]) == text + if |data| - start > 3 then Encoded(data[start..][3..]) else ""
    ensures (before + text) + (if start + 3 < |data| then Encoded(data[start + 3..]) else "") == Encoded(data)
  {
    hide Encoded;
    if start + 3 < |data| { assert data[start..][3..] == data[start + 3..]; }
  }

  /** Four symbols off the front. */
  lemma GroupFits(rest: seq<Byte>, xs: seq<Symbol>)
    requires rest != [] && |xs| == 4 && |Grouped(rest)| >= 4 && xs == Grouped(rest)[..4]
    ensures forall i :: 0 <= i < |xs| ==> Proper(xs[i])
    ensures |rest| > 3 ==> Encoded(rest) == Text(xs) + Encoded(rest[3..])
    ensures |rest| <= 3 ==> Encoded(rest) == Text(xs)
  {
    assert forall i :: 0 <= i < 4 ==> xs[i] == Grouped(rest)[i];
    if |rest| >= 3 { assert Grouped(rest) == xs + Grouped(rest[3..]); }
  }

  // ------------------------------------------------------------------- decoding

  /** Invalid stands for a failed "invalid base64 input" assertion. */
  datatype Result = Bytes(value: seq<Byte>) | Invalid

  function Prepend(b: seq<Byte>, r: Result): Result {
    if r.Bytes? then Bytes(b + r.value) else Invalid
  }

  function Byte1(p: Byte, q: Byte): Byte { (p << 2) | ((q >> 4) & 0x3) }
  function Byte2(q: Byte, r: Byte): Byte { ((q << 4) & 0xf0) | ((r >> 2) & 0xf) }
  function Byte3(r: Byte, s: Byte): Byte { ((r << 6) & 0xc0) | s }

  /** Decoding stops at the first '=' in the third or fourth place of a group. */
  function Ungrouped(xs: seq<Symbol>): Result {
    if xs == [] then Bytes([])
    else if |xs| < 2 || !xs[0].Value? || !xs[1].Value? then Invalid
    else if |xs| == 2 || xs[2] == Fill then Bytes([Byte1(xs[0].v, xs[1].v)])
    else if xs[2] == Bad then Invalid
    else if |xs| == 3 || xs[3] == Fill then Bytes([Byte1(xs[0].v, xs[1].v), Byte2(xs[1].v, xs[2].v)])
    else if xs[3] == Bad then Invalid
    else Prepend([Byte1(xs[0].v, xs[1].v), Byte2(xs[1].v, xs[2].v), Byte3(xs[2].v, xs[3].v)], Ungrouped(xs[4..]))
  }

  function Decoded(data: string): Result { Ungrouped(Symbols(data)) }

  /** Find() with its assertion; a read past the end finds nothing. */
  function At(data: string, i: nat): Symbol {
    if i < |data| then SymbolOf(data[i]) else Bad
  }

  /** What one pass of the loop does with the symbols from its first index on: the bytes
      it appends, and whether the loop goes on. */
  datatype Pass = Pass(bytes: seq<Byte>, next: Next)
  datatype Next = GoOn | Stop | Fail

  /** The pass over n symbols that begin with a, b, c and d. */
  function PassFrom(n: nat, a: Symbol, b: Symbol, c: Symbol, d: Symbol): Pass {
    if n < 2 || !a.Value? || !b.Value? then Pass([], Fail)
    else if n == 2 || c == Fill then Pass([Byte1(a.v, b.v)], Stop)
    else if c == Bad then Pass([Byte1(a.v, b.v)], Fail)
    else if n == 3 || d == Fill then Pass([Byte1(a.v, b.v), Byte2(b.v, c.v)], Stop)
    else if d == Bad then Pass([Byte1(a.v, b.v), Byte2(b.v, c.v)], Fail)
    else Pass([Byte1(a.v, b.v), Byte2(b.v, c.v), Byte3(c.v, d.v)], GoOn)
  }

  function Nth(xs: seq<Symbol>, k: nat): Symbol { if k < |xs| then xs[k] else Bad }

  function PassOf(xs: seq<Symbol>): Pass {
    PassFrom(|xs|, Nth(xs, 0), Nth(xs, 1), Nth(xs, 2), Nth(xs, 3))
  }

  lemma PassResult(xs: seq<Symbol>)
    requires xs != []
    ensures PassOf(xs).next.Fail? ==> Ungrouped(xs) == Invalid
    ensures PassOf(xs).next.Stop? ==> Ungrouped(xs) == Bytes(PassOf(xs).bytes)
    ensures PassOf(xs).next.GoOn? ==> |xs| >= 4 && Ungrouped(xs) == Prepend(PassOf(xs).bytes, Ungrouped(xs[4..]))
  {
    hide Byte1, Byte2, Byte3;
    if |xs| > 1 { assert Nth(xs, 0) == xs[0] && Nth(xs, 1) == xs[1]; }
    if |xs| > 2 { assert Nth(xs, 2) == xs[2]; }
    if |xs| > 3 { assert Nth(xs, 3) == xs[3]; }
  }

  lemma NextAt(data: string, start: nat, k: nat)
    requires start < |data|
    ensures Nth(Symbols(data)[start..], k) == At(data, start + k)
  {
    var xs := Symbols(data)[start..];
    if k < |xs| { assert xs[k] == Symbols(data)[start + k]; }
  }

  lemma PassHere(data: string, start: nat)
    requires start < |data|
    ensures PassOf(Symbols(data)[start..])
         == PassFrom(|data| - start, At(data, start), At(data, start + 1), At(data, start + 2), At(data, start + 3))
  {
    NextAt(data, start, 0);
    NextAt(data, start, 1);
    NextAt(data, start, 2);
    NextAt(data, start, 3);
    hide PassFrom, Nth, At, Symbols;
  }

  /** The loop body; i ends as in the loop when it goes on. */
  method DecodeGroup(data: string, start: nat) returns (bytes: seq<Byte>, next: Next, i: nat)
    requires start < |data|
    ensures Pass(bytes, next) == PassOf(Symbols(data)[start..])
    ensures next.GoOn? ==> i == start + 3
  {
    var len := |data|;
    PassHere(data, start);
    hide Symbols, PassOf, At, SymbolOf, Byte1, Byte2, Byte3;
    bytes, next, i := [], Fail, start;
    var x := At(data, i);
    if !x.Value? { return; }
    var c := x.v;
    i := i + 1;
    x := At(data, i);
    if !x.Value? { return; }
    var c1 := x.v;
    bytes := bytes + [Byte1(c, c1)];
    ghost var first := Byte1(c, c1);
    assert bytes == [first];
    i := i + 1;
    if i < len {
      x := At(data, i);
      if x == Fill { next := Stop; return; }
      if x == Bad { return; }
      c := x.v;
      bytes := bytes + [Byte2(c1, c)];
      assert bytes == [first, Byte2(c1, c)];
    }
    i := i + 1;
    if i < len {
      x := At(data, i);
      if x == Fill { next := Stop; return; }
      if x == Bad { return; }
      c1 := x.v;
      bytes := bytes + [Byte3(c, c1)];
      next := GoOn;
    } else {
      next := Stop;
    }
  }

  /** What one pass adds to what has been decoded. */
  lemma DecodeStep(ret: seq<Byte>, rest: seq<Symbol>, whole: Result, bytes: seq<Byte>, next: Next)
    requires rest != [] && Prepend(ret, Ungrouped(rest)) == whole && Pass(bytes, next) == PassOf(rest)
    ensures next.Fail? ==> whole == Invalid
    ensures next.Stop? ==> whole == Bytes(ret + bytes)
    ensures next.GoOn? ==> |rest| >= 4 && Prepend(ret + bytes, Ungrouped(rest[4..])) == whole
  {
    PassResult(rest);
    hide PassOf, Ungrouped;
    if next.GoOn? {
      match Ungrouped(rest[4..])
      case Invalid =>
      case Bytes(b) => assert ret + (bytes + b) == (ret + bytes) + b;
    }
  }

  method Decode(data: string) returns (r: Result)
    ensures r == Decoded(data)
  {
    assert Ungrouped([]) == Bytes([]);
    hide PassOf, Ungrouped, Symbols;
    var ret: seq<Byte> := [];
    var i := 0;
    ghost var xs := Symbols(data);
    while i < |data|
      invariant i <= |data| && Prepend(ret, Ungrouped(xs[i..])) == Ungrouped(xs)
    {
      ghost var rest := xs[i..];
      var bytes, next, last := DecodeGroup(data, i);
      DecodeStep(ret, rest, Ungrouped(xs), bytes, next);
      if next.Fail? { return Invalid; }
      ret := ret + bytes;
      if next.Stop? { return Bytes(ret); }
      assert rest[4..] == xs[last + 1..];
      i := last + 1;
    }
    r := Bytes(ret);
  }

  // ----------------------------------------------------------------- round trips

  lemma BytesBack(a: Byte, b: Byte, c: Byte)
    ensures Byte1(First(a), Second(a, b)) == a
    ensures Byte2(Second(a, b), Third(b, c)) == b
    ensures Byte3(Third(b, c), Fourth(c)) == c
  {
  }

  lemma SextetsBack(p: Byte, q: Byte, r: Byte, s: Byte)
    requires p < 64 && q < 64 && r < 64 && s < 64
    ensures First(Byte1(p, q)) == p
    ensures Second(Byte1(p, q), Byte2(q, r)) == q
    ensures Third(Byte2(q, r), Byte3(r, s)) == r
    ensures Fourth(Byte3(r, s)) == s
    ensures q & 0x0f == 0 ==> Second(Byte1(p, q), 0) == q
    ensures r & 0x03 == 0 ==> Third(Byte2(q, r), 0) == r
  {
  }

  lemma UngroupFull(xs: seq<Symbol>, a: Byte, b: Byte, c: Byte)
    requires |xs| >= 4 && xs[0].Value? && xs[1].Value? && xs[2].Value? && xs[3].Value?
    requires Byte1(xs[0].v, xs[1].v) == a && Byte2(xs[1].v, xs[2].v) == b && Byte3(xs[2].v, xs[3].v) == c
    ensures Ungrouped(xs) == Prepend([a, b, c], Ungrouped(xs[4..]))
  {
  }

  lemma {:induction false} UngroupGroup(data: seq<Byte>)
    ensures Ungrouped(Grouped(data)) == Bytes(data)
  {
    if data == [] {
    } else if |data| == 1 {
      BytesBack(data[0], 0, 0);
    } else if |data| == 2 {
      BytesBack(data[0], data[1], 0);
    } else {
      BytesBack(data[0], data[1], data[2]);
      UngroupFull(Grouped(data), data[0], data[1], data[2]);
      UngroupGroup(data[3..]);
      assert Grouped(data)[4..] == Grouped(data[3..]);
      assert data == [data[0], data[1], data[2]] + data[3..];
    }
  }

  /** Decode undoes Encode on every byte sequence. */
  lemma DecodeEncode(data: seq<Byte>)
    ensures Decoded(Encoded(data)) == Bytes(data)
  {
    SymbolsText(Grouped(data));
    UngroupGroup(data);
  }

  lemma {:induction false} EncodedLength(data: seq<Byte>)
    ensures |Encoded(data)| == 4 * ((|data| + 2) / 3)
  {
    if |data| > 2 { EncodedLength(data[3..]); }
  }

  /** Groups of four values; the last group may end in one or two fills, and then the bits
      that belong to no byte are zero (RFC 4648, sections 3.2, 3.5 and 4). */
  predicate CanonicalGroups(xs: seq<Symbol>) {
    xs == [] ||
    (|xs| >= 4 && Low(xs[0]) && Low(xs[1]) &&
     ((|xs| == 4 && xs[2] == xs[3] == Fill && xs[1].v & 0x0f == 0) ||
      (|xs| == 4 && Low(xs[2]) && xs[3] == Fill && xs[2].v & 0x03 == 0) ||
      (Low(xs[2]) && Low(xs[3]) && CanonicalGroups(xs[4..]))))
  }

  predicate Low(x: Symbol) { x.Value? && x.v < 64 }

  predicate Canonical(s: string) { CanonicalGroups(Symbols(s)) }

  lemma PadBits(a: Byte, b: Byte)
    ensures Second(a, 0) & 0x0f == 0 && Third(b, 0) & 0x03 == 0
  {
  }

  lemma {:induction false} GroupedCanonical(data: seq<Byte>)
    ensures CanonicalGroups(Grouped(data))
  {
    if data == [] {
    } else if |data| == 1 {
      PadBits(data[0], 0);
      Sextets(data[0], 0, 0);
    } else if |data| == 2 {
      PadBits(data[0], data[1]);
      Sextets(data[0], data[1], 0);
    } else {
      Sextets(data[0], data[1], data[2]);
      assert Grouped(data)[4..] == Grouped(data[3..]);
      GroupedCanonical(data[3..]);
    }
  }

  lemma {:induction false} GroupUngroup(xs: seq<Symbol>)
    requires CanonicalGroups(xs)
    ensures Ungrouped(xs).Bytes? && Grouped(Ungrouped(xs).value) == xs
    ensures forall i :: 0 <= i < |xs| ==> Proper(xs[i])
  {
    if xs == [] {
    } else if |xs| == 4 && xs[2] == Fill {
      SextetsBack(xs[0].v, xs[1].v, 0, 0);
    } else if |xs| == 4 && xs[3] == Fill {
      SextetsBack(xs[0].v, xs[1].v, xs[2].v, 0);
    } else {
      GroupUngroup(xs[4..]);
      FullGroup(xs);
    }
  }

  lemma GroupFull(xs: seq<Symbol>, a: Byte, b: Byte, c: Byte, rest: seq<Byte>)
    requires |xs| >= 4 && xs[0] == Value(First(a)) && xs[1] == Value(Second(a, b)) && xs[2] == Value(Third(b, c))
    requires xs[3] == Value(Fourth(c)) && Grouped(rest) == xs[4..]
    ensures Grouped([a, b, c] + rest) == xs
  {
    assert ([a, b, c] + rest)[3..] == rest;
    assert xs == [xs[0], xs[1], xs[2], xs[3]] + xs[4..];
  }

  lemma FullGroup(xs: seq<Symbol>)
    requires |xs| >= 4 && Ungrouped(xs[4..]).Bytes? && Grouped(Ungrouped(xs[4..]).value) == xs[4..]
    requires forall i :: 0 <= i < 4 ==> Low(xs[i])
    ensures Ungrouped(xs).Bytes? && Grouped(Ungrouped(xs).value) == xs
    ensures forall i :: 0 <= i < |xs| ==> Proper(xs[i])
  {
    var p, q, r, t := xs[0].v, xs[1].v, xs[2].v, xs[3].v;
    var a, b, c := Byte1(p, q), Byte2(q, r), Byte3(r, t);
    UngroupFull(xs, a, b, c);
    SextetsBack(p, q, r, t);
    GroupFull(xs, a, b, c, Ungrouped(xs[4..]).value);
    assert forall i :: 4 <= i < |xs| ==> xs[i] == xs[4..][i - 4];
  }

  /** Encode undoes Decode on exactly the canonical strings. */
  lemma EncodeDecode(s: string)
    ensures Decoded(s).Bytes? && Encoded(Decoded(s).value) == s <==> Canonical(s)
  {
    if Canonical(s) {
      GroupUngroup(Symbols(s));
      TextSymbols(s);
    }
    if Decoded(s).Bytes? && Encoded(Decoded(s).value) == s {
      var data := Decoded(s).value;
      SymbolsText(Grouped(data));
      GroupedCanonical(data);
    }
  }

  // ---------------------------------------------------- the definition of RFC 4648

  /** The bits of a byte, most significant first. */
  function BitsOf(b: Byte): (r: seq<bool>)
    ensures |r| == 8
  {
    [b & 0x80 != 0, b & 0x40 != 0, b & 0x20 != 0, b & 0x10 != 0,
     b & 0x08 != 0, b & 0x04 != 0, b & 0x02 != 0, b & 0x01 != 0]
  }

  function Flat(data: seq<Byte>, f: Byte -> seq<bool>): seq<bool> {
    if data == [] then [] else f(data[0]) + Flat(data[1..], f)
  }

  function Bits(data: seq<Byte>): seq<bool> { Flat(data, BitsOf) }

  function Weigh(b: bool, weight: Byte): Byte { if b then weight else 0 }

  function Six(b0: bool, b1: bool, b2: bool, b3: bool, b4: bool, b5: bool): Byte {
    Weigh(b0, 32) | Weigh(b1, 16) | Weigh(b2, 8) | Weigh(b3, 4) | Weigh(b4, 2) | Weigh(b5, 1)
  }

  /** The bit at k; zero bits are added on the right. */
  predicate Bit(bits: seq<bool>, k: nat) { k < |bits| && bits[k] }

  function Sextet(bits: seq<bool>): Byte {
    Six(Bit(bits, 0), Bit(bits, 1), Bit(bits, 2), Bit(bits, 3), Bit(bits, 4), Bit(bits, 5))
  }

  /** One value for each six bits. */
  function SextetsOf(bits: seq<bool>): seq<Symbol>
    decreases |bits|
  {
    if bits == [] then [] else [Value(Sextet(bits))] + SextetsOf(if |bits| <= 6 then [] else bits[6..])
  }

  /** Fill characters until the length is a multiple of four. */
  function Padded(xs: seq<Symbol>): seq<Symbol>
    decreases (4 - |xs| % 4) % 4
  {
    if |xs| % 4 == 0 then xs else Padded(xs + [Fill])
  }

  lemma SixFirst(a: Byte)
    ensures Six(a & 0x80 != 0, a & 0x40 != 0, a & 0x20 != 0, a & 0x10 != 0, a & 0x08 != 0, a & 0x04 != 0) == First(a)
  {
  }

  lemma SixSecond(a: Byte, b: Byte)
    ensures Six(a & 0x02 != 0, a & 0x01 != 0, b & 0x80 != 0, b & 0x40 != 0, b & 0x20 != 0, b & 0x10 != 0)
        == Second(a, b)
  {
  }

  lemma SixThird(b: Byte, c: Byte)
    ensures Six(b & 0x08 != 0, b & 0x04 != 0, b & 0x02 != 0, b & 0x01 != 0, c & 0x80 != 0, c & 0x40 != 0) == Third(b, c)
  {
  }

  lemma SixFourth(c: Byte)
    ensures Six(c & 0x20 != 0, c & 0x10 != 0, c & 0x08 != 0, c & 0x04 != 0, c & 0x02 != 0, c & 0x01 != 0) == Fourth(c)
  {
  }

  lemma SixSecondAlone(a: Byte)
    ensures Six(a & 0x02 != 0, a & 0x01 != 0, false, false, false, false) == Second(a, 0)
  {
  }

  lemma SixThirdAlone(b: Byte)
    ensures Six(b & 0x08 != 0, b & 0x04 != 0, b & 0x02 != 0, b & 0x01 != 0, false, false) == Third(b, 0)
  {
  }

  lemma SextetsStep(bits: seq<bool>)
    requires |bits| >= 6
    ensures SextetsOf(bits) == [Value(Six(bits[0], bits[1], bits[2], bits[3], bits[4], bits[5]))] + SextetsOf(bits[6..])
  {
    if |bits| == 6 { assert bits[6..] == []; }
  }

  /** Twenty-four bits are four values. */
  lemma FullBits(x: seq<bool>, y: seq<bool>, z: seq<bool>, rest: seq<bool>)
    requires |x| == |y| == |z| == 8
    ensures SextetsOf(x + y + z + rest)
         == [Value(Six(x[0], x[1], x[2], x[3], x[4], x[5])), Value(Six(x[6], x[7], y[0], y[1], y[2], y[3])),
             Value(Six(y[4], y[5], y[6], y[7], z[0], z[1])), Value(Six(z[2], z[3], z[4], z[5], z[6], z[7]))]
            + SextetsOf(rest)
  {
    var s0, s1 := [x[0], x[1], x[2], x[3], x[4], x[5]], [x[6], x[7], y[0], y[1], y[2], y[3]];
    var s2, s3 := [y[4], y[5], y[6], y[7], z[0], z[1]], [z[2], z[3], z[4], z[5], z[6], z[7]];
    SextetsAfter(s3, rest);
    SextetsAfter(s2, s3 + rest);
    SextetsAfter(s1, s2 + (s3 + rest));
    SextetsAfter(s0, s1 + (s2 + (s3 + rest)));
    Regroup(x, y, z, rest);
    FourFront(Value(Six(x[0], x[1], x[2], x[3], x[4], x[5])), Value(Six(x[6], x[7], y[0], y[1], y[2], y[3])),
              Value(Six(y[4], y[5], y[6], y[7], z[0], z[1])), Value(Six(z[2], z[3], z[4], z[5], z[6], z[7])),
              SextetsOf(rest));
  }

  lemma Regroup(x: seq<bool>, y: seq<bool>, z: seq<bool>, rest: seq<bool>)
    requires |x| == |y| == |z| == 8
    ensures x + y + z + rest
         == [x[0], x[1], x[2], x[3], x[4], x[5]] + ([x[6], x[7], y[0], y[1], y[2], y[3]]
            + ([y[4], y[5], y[6], y[7], z[0], z[1]] + ([z[2], z[3], z[4], z[5], z[6], z[7]] + rest)))
  {
  }

  lemma FourFront<T>(a: T, b: T, c: T, d: T, rest: seq<T>)
    ensures [a] + ([b] + ([c] + ([d] + rest))) == [a, b, c, d] + rest
  {
  }

  lemma SextetsAfter(six: seq<bool>, rest: seq<bool>)
    requires |six| == 6
    ensures SextetsOf(six + rest) == [Value(Six(six[0], six[1], six[2], six[3], six[4], six[5]))] + SextetsOf(rest)
  {
    SextetsStep(six + rest);
    assert (six + rest)[6..] == rest;
  }

  lemma OneByte(x: seq<bool>)
    requires |x| == 8
    ensures SextetsOf(x) == [Value(Six(x[0], x[1], x[2], x[3], x[4], x[5])),
                             Value(Six(x[6], x[7], false, false, false, false))]
  {
    SextetsStep(x);
    assert SextetsOf(x[6..]) == [Value(Sextet(x[6..]))] + SextetsOf([]);
  }

  lemma TwoBytes(x: seq<bool>, y: seq<bool>)
    requires |x| == |y| == 8
    ensures SextetsOf(x + y)
         == [Value(Six(x[0], x[1], x[2], x[3], x[4], x[5])), Value(Six(x[6], x[7], y[0], y[1], y[2], y[3])),
             Value(Six(y[4], y[5], y[6], y[7], false, false))]
  {
    hide Six;
    var bits := x + y;
    SextetsStep(bits);
    SextetsStep(bits[6..]);
    assert bits[6..][6..] == bits[12..];
    assert SextetsOf(bits[12..]) == [Value(Sextet(bits[12..]))] + SextetsOf([]);
  }

  lemma {:induction false} PaddedTail(head: seq<Symbol>, xs: seq<Symbol>)
    requires |head| == 4
    ensures Padded(head + xs) == head + Padded(xs)
    decreases (4 - |xs| % 4) % 4
  {
    if |xs| % 4 != 0 {
      assert (head + xs) + [Fill] == head + (xs + [Fill]);
      PaddedTail(head, xs + [Fill]);
    }
  }

  lemma PaddedShort(xs: seq<Symbol>)
    requires |xs| == 2 || |xs| == 3
    ensures Padded(xs) == if |xs| == 2 then xs + [Fill, Fill] else xs + [Fill]
  {
    if |xs| == 2 {
      assert Padded(xs) == Padded(xs + [Fill]) == Padded(xs + [Fill] + [Fill]);
      assert xs + [Fill] + [Fill] == xs + [Fill, Fill];
    }
  }

  lemma FlatStep(data: seq<Byte>, f: Byte -> seq<bool>)
    requires data != []
    ensures Flat(data, f) == f(data[0]) + Flat(data[1..], f)
  {
  }

  lemma Reassociate(a: seq<bool>, b: seq<bool>, c: seq<bool>, d: seq<bool>)
    ensures a + (b + (c + d)) == a + b + c + d
  {
  }

  lemma FlatThree(data: seq<Byte>, f: Byte -> seq<bool>)
    requires |data| >= 3
    ensures Flat(data, f) == f(data[0]) + f(data[1]) + f(data[2]) + Flat(data[3..], f)
  {
    hide Flat;
    assert data[1..][1..] == data[2..] && data[2..][1..] == data[3..];
    FlatStep(data, f);
    FlatStep(data[1..], f);
    FlatStep(data[2..], f);
    Reassociate(f(data[0]), f(data[1]), f(data[2]), Flat(data[3..], f));
  }

  lemma FlatShort(data: seq<Byte>, f: Byte -> seq<bool>)
    requires |data| == 1 || |data| == 2
    ensures Flat(data, f) == if |data| == 1 then f(data[0]) else f(data[0]) + f(data[1])
  {
    assert Flat([], f) == [];
    if |data| == 2 { assert Flat(data[1..], f) == f(data[1]) + Flat([], f); }
  }

  lemma FullGroupBits(a: Byte, b: Byte, c: Byte, rest: seq<bool>)
    ensures SextetsOf(BitsOf(a) + BitsOf(b) + BitsOf(c) + rest) == Group(a, b, c) + SextetsOf(rest)
  {
    FullBits(BitsOf(a), BitsOf(b), BitsOf(c), rest);
    SixFirst(a);
    SixSecond(a, b);
    SixThird(b, c);
    SixFourth(c);
  }

  lemma OneGroupBits(a: Byte)
    ensures SextetsOf(BitsOf(a)) == Group(a, 0, 0)[..2]
  {
    OneByte(BitsOf(a));
    SixFirst(a);
    SixSecondAlone(a);
  }

  lemma TwoGroupBits(a: Byte, b: Byte)
    ensures SextetsOf(BitsOf(a) + BitsOf(b)) == Group(a, b, 0)[..3]
  {
    TwoBytes(BitsOf(a), BitsOf(b));
    SixFirst(a);
    SixSecond(a, b);
    SixThirdAlone(b);
  }

  /** Encode computes the encoding of RFC 4648, section 4: the bits of the data, six at a
      time with zero bits at the end, and fill characters up to a multiple of four. */
  lemma {:induction false} EncodedIsRfc4648(data: seq<Byte>)
    ensures Grouped(data) == Padded(SextetsOf(Bits(data)))
  {
    if data == [] {
    } else if |data| <= 2 {
      FlatShort(data, BitsOf);
      if |data| == 1 { OneGroupBits(data[0]); } else { TwoGroupBits(data[0], data[1]); }
      PaddedShort(SextetsOf(Bits(data)));
    } else {
      FlatThree(data, BitsOf);
      FullGroupBits(data[0], data[1], data[2], Bits(data[3..]));
      PaddedTail(Group(data[0], data[1], data[2]), SextetsOf(Bits(data[3..])));
      EncodedIsRfc4648(data[3..]);
    }
  }

  /** The letters of RFC 4648, table 1. */
  predicate StandsFor(c: char, x: Symbol) {
    match x
    case Fill => c == '='
    case Bad => false
    case Value(v) =>
      var k := v as int;
      if k < 26 then c as int == 'A' as int + k
      else if k < 52 then c as int == 'a' as int + (k - 26)
      else if k < 62 then c as int == '0' as int + (k - 52)
      else if k == 62 then c == '+' else k == 63 && c == '/'
  }

  lemma LetterStandsFor(x: Symbol)
    requires Proper(x)
    ensures StandsFor(LetterOf(x), x)
  {
    if x.Value? {
      IntBack(x.v);
      CvtAt(x.v as int);
    }
  }

  lemma OneLetter(x: Symbol, c: char, d: char)
    requires StandsFor(c, x) && StandsFor(d, x)
    ensures c == d
  {
  }

  lemma StandsProper(c: char, x: Symbol)
    requires StandsFor(c, x)
    ensures Proper(x)
  {
    if x.Value? { ByteSmall(x.v); }
  }

  /** Characters are read as that table says, and no others are accepted. */
  lemma ReadAsLetters(c: char, x: Symbol)
    ensures StandsFor(c, x) <==> x != Bad && SymbolOf(c) == x
  {
    if StandsFor(c, x) {
      StandsProper(c, x);
      LetterStandsFor(x);
      OneLetter(x, c, LetterOf(x));
      SymbolBack(x);
    }
    if x != Bad && SymbolOf(c) == x {
      LetterBack(c);
      LetterStandsFor(x);
    }
  }

  /** The string that Encode returns is the encoding of RFC 4648, section 4: the letters of
      the bits of the data, six at a time, filled up with '=' to a multiple of four. */
  lemma EncodedLetters(data: seq<Byte>)
    ensures var s, xs := Encoded(data), Padded(SextetsOf(Bits(data)));
      |s| == |xs| && forall i :: 0 <= i < |s| ==> StandsFor(s[i], xs[i])
  {
    EncodedIsRfc4648(data);
    var s, xs := Encoded(data), Grouped(data);
    hide Grouped, StandsFor, LetterOf;
    forall i | 0 <= i < |s| ensures StandsFor(s[i], xs[i]) {
      LetterStandsFor(xs[i]);
    }
  }
}
