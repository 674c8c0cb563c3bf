/** Packing of bytes into seven-bit bytes and back
    (qt_widgets/DNREngineThread.cpp, Encode8to7bits and Decode7to8bits). */
module SevenBit {
  import opened Basics

  // ----- one step of each loop -----

  // The masks and shifts of the encoder, for a byte at place s in its group of seven.
  function Mask1(s: nat): Byte requires s < 7 { 0x7F >> s }
  function Mask2(s: nat): Byte requires s < 7 { Mask1(s) ^ 0xFF }
  function Head(b: Byte, s: nat): Byte requires s < 7 { (b & Mask1(s)) << s }
  function Tail(b: Byte, s: nat): Byte requires s < 7 { (b & Mask2(s)) >> (7 - s) }

  // Those of the decoder, for a byte at place s in its group of eight.
  function DMask1(s: nat): Byte requires s < 8 { (0x7F >> s) << s }
  function DMask2(s: nat): Byte requires s < 8 { DMask1(s) ^ 0x7F }
  function Low(b: Byte, s: nat): Byte requires s < 8 { (b & DMask1(s)) >> s }
  function High(b: Byte, s: nat): Byte requires 1 <= s < 8 { (b & DMask2(s)) << (8 - s) }

  // ----- the two codes -----

  function At(x: seq<Byte>, i: int): Byte { if 0 <= i < |x| then x[i] else 0 }

  /** How many seven-bit bytes n bytes need: 8n / 7, rounded up. */
  function EncodedSize(n: nat): nat { n + (n + 6) / 7 }

  // The rest of byte a below the start of byte b.
  function Join(a: Byte, b: Byte, r: nat): Byte
    requires r < 8
  {
    (if r < 7 then Head(b, r) else 0) | (if r > 0 then Tail(a, r - 1) else 0)
  }

  // The byte that starts in septet y0 and ends in septet y1.
  function Split(y0: Byte, y1: Byte, r: nat): Byte
    requires r < 7
  {
    Low(y0, r) | High(y1, r + 1)
  }

  /** Seven-bit byte r of group q: the rest of one byte below the start of the next. */
  function SeptetIn(x: seq<Byte>, q: nat, r: nat): Byte
    requires r < 8
  {
    Join(At(x, 7 * q + r - 1), At(x, 7 * q + r), r)
  }

  function Septet(x: seq<Byte>, k: nat): Byte { SeptetIn(x, k / 8, k % 8) }

  function Encoded(x: seq<Byte>): (y: seq<Byte>)
    ensures |y| == EncodedSize(|x|) && forall k :: 0 <= k < |y| ==> y[k] == Septet(x, k)
  {
    seq(EncodedSize(|x|), k requires 0 <= k => Septet(x, k))
  }

  function DecodedSize(m: nat): nat { if m == 0 then 0 else m - 1 - (m - 1) / 8 }

  function OctetIn(y: seq<Byte>, q: nat, r: nat): Byte
    requires r < 7
  {
    Split(At(y, 8 * q + r), At(y, 8 * q + r + 1), r)
  }

  function Octet(y: seq<Byte>, j: nat): Byte { OctetIn(y, j / 7, j % 7) }

  function Decoded(y: seq<Byte>): (x: seq<Byte>)
    ensures |x| == DecodedSize(|y|) && forall j :: 0 <= j < |x| ==> x[j] == Octet(y, j)
  {
    seq(DecodedSize(|y|), j requires 0 <= j => Octet(y, j))
  }

  // ----- they undo each other -----

  lemma {:induction false} SizesMatch(n: nat)
    ensures DecodedSize(EncodedSize(n)) == n
    ensures 7 * EncodedSize(n) >= 8 * n > 7 * EncodedSize(n) - 7
  {
    var q, r := n / 7, n % 7;
    if r == 0 {
      assert EncodedSize(n) == 8 * q;
    } else {
      assert EncodedSize(n) == 8 * q + r + 1;
    }
  }

  // What the decoder takes out of two neighbouring septets is what the encoder put in.
  lemma {:induction false} Rejoin(a: Byte, b: Byte, c: Byte, r: nat)
    requires r < 7
    ensures Split(Join(a, b, r), Join(b, c, r + 1), r) == b
  {
    if r < 2 { Rejoin01(a, b, c, r); }
    else if r < 4 { Rejoin23(a, b, c, r); }
    else if r < 6 { Rejoin45(a, b, c, r); }
  }

  lemma {:induction false} Rejoin01(a: Byte, b: Byte, c: Byte, r: nat)
    requires 0 <= r < 2
    ensures Split(Join(a, b, r), Join(b, c, r + 1), r) == b
  {
    if r == 0 {} else {}
  }

  lemma {:induction false} Rejoin23(a: Byte, b: Byte, c: Byte, r: nat)
    requires 2 <= r < 4
    ensures Split(Join(a, b, r), Join(b, c, r + 1), r) == b
  {
    if r == 2 {} else {}
  }

  lemma {:induction false} Rejoin45(a: Byte, b: Byte, c: Byte, r: nat)
    requires 4 <= r < 6
    ensures Split(Join(a, b, r), Join(b, c, r + 1), r) == b
  {
    if r == 4 {} else {}
  }

  /** Decoding gives back what was encoded. */
  lemma {:induction false} RoundTrip(x: seq<Byte>)
    ensures Decoded(Encoded(x)) == x
  {
    SizesMatch(|x|);
    forall j | 0 <= j < |x|
      ensures Decoded(Encoded(x))[j] == x[j]
    {
      OctetOfSeptets(x, j);
    }
  }

  lemma {:induction false} OctetOfSeptets(x: seq<Byte>, j: nat)
    requires j < |x|
    ensures Octet(Encoded(x), j) == x[j]
  {
    var q, r := j / 7, j % 7;
    SeptetAt(x, q, r);
    SeptetAt(x, q, r + 1);
    PairOfSeptets(x, q, r);
    assert At(x, 7 * q + r) == x[j];
  }

  lemma {:induction false} PairOfSeptets(x: seq<Byte>, q: nat, r: nat)
    requires r < 7
    ensures Split(SeptetIn(x, q, r), SeptetIn(x, q, r + 1), r) == At(x, 7 * q + r)
  {
    Rejoin(At(x, 7 * q + r - 1), At(x, 7 * q + r), At(x, 7 * q + r + 1), r);
  }

  lemma {:induction false} SeptetAt(x: seq<Byte>, q: nat, r: nat)
    requires r < 8 && 8 * q + r < EncodedSize(|x|)
    ensures At(Encoded(x), 8 * q + r) == SeptetIn(x, q, r)
  {
    var k := 8 * q + r;
    assert k / 8 == q && k % 8 == r;
    assert Encoded(x)[k] == Septet(x, k);
  }

  // ----- the bit string -----

  // Bit i of a byte, the lowest first.
  function Bit(b: Byte, i: nat): bool requires i < 8 { (b >> i) & 1 == 1 }

  lemma {:induction false} JoinBit(a: Byte, b: Byte, r: nat, i: nat)
    requires r < 8 && i < 7
    ensures Bit(Join(a, b, r), i) <==> if i >= r then Bit(b, i - r) else Bit(a, 8 - r + i)
  {
    if r < 2 { JoinBit01(a, b, r, i); }
    else if r < 4 { JoinBit23(a, b, r, i); }
    else if r == 4 { JoinBit4(a, b, r, i); }
    else if r == 5 { JoinBit5(a, b, r, i); }
    else { JoinBit67(a, b, r, i); }
  }

  lemma {:induction false} JoinBit01(a: Byte, b: Byte, r: nat, i: nat)
    requires r < 2 && i < 7
    ensures Bit(Join(a, b, r), i) <==> if i >= r then Bit(b, i - r) else Bit(a, 8 - r + i)
  {
    if r == 0 {} else {}
  }

  lemma {:induction false} JoinBit23(a: Byte, b: Byte, r: nat, i: nat)
    requires 2 <= r < 4 && i < 7
    ensures Bit(Join(a, b, r), i) <==> if i >= r then Bit(b, i - r) else Bit(a, 8 - r + i)
  {
    if r == 2 {} else {}
  }

  lemma {:induction false} JoinBit4(a: Byte, b: Byte, r: nat, i: nat)
    requires r == 4 && i < 7
    ensures Bit(Join(a, b, r), i) <==> if i >= r then Bit(b, i - r) else Bit(a, 8 - r + i)
  {
  }

  lemma {:induction false} JoinBit5(a: Byte, b: Byte, r: nat, i: nat)
    requires r == 5 && i < 7
    ensures Bit(Join(a, b, r), i) <==> if i >= r then Bit(b, i - r) else Bit(a, 8 - r + i)
  {
  }

  lemma {:induction false} JoinBit67(a: Byte, b: Byte, r: nat, i: nat)
    requires 6 <= r < 8 && i < 7
    ensures Bit(Join(a, b, r), i) <==> if i >= r then Bit(b, i - r) else Bit(a, 8 - r + i)
  {
    if r == 6 {} else {}
  }

  lemma {:induction false} SevenBits(a: Byte, b: Byte, r: nat)
    requires r < 8
    ensures Join(a, b, r) < 0x80
  {
    if r == 0 {} else if r == 1 {} else if r == 2 {} else if r == 3 {} else if r == 4 {} else if r == 5 {}
    else if r == 6 {} else {}
  }

  // Bit p of the string a sequence denotes, in bytes of the given width, lowest bits first.
  function BitOf(s: seq<Byte>, width: nat, p: nat): bool
    requires 1 <= width <= 8
  {
    Bit(At(s, p / width), p % width)
  }

  /** The encoding has 8n / 7 bytes, rounded up, all below 0x80, and denotes the same bit string
      followed by zeros. */
  lemma {:induction false} SameBits(x: seq<Byte>)
    ensures forall k :: 0 <= k < |Encoded(x)| ==> Encoded(x)[k] < 0x80
    ensures 8 * |x| <= 7 * |Encoded(x)| < 8 * |x| + 7
    ensures forall p: nat :: p < 7 * |Encoded(x)| ==> BitOf(Encoded(x), 7, p) == BitOf(x, 8, p)
    ensures forall p: nat :: p >= 8 * |x| ==> !BitOf(x, 8, p)
  {
    SizesMatch(|x|);
    forall k | 0 <= k < |Encoded(x)|
      ensures Encoded(x)[k] < 0x80
    {
      SevenBits(At(x, 7 * (k / 8) + k % 8 - 1), At(x, 7 * (k / 8) + k % 8), k % 8);
    }
    forall p: nat | p < 7 * |Encoded(x)|
      ensures BitOf(Encoded(x), 7, p) == BitOf(x, 8, p)
    {
      SameBit(x, p);
    }
    forall p: nat | p >= 8 * |x|
      ensures !BitOf(x, 8, p)
    {
      ZeroBit(p % 8);
    }
  }

  lemma {:induction false} ZeroBit(i: nat)
    requires i < 8
    ensures !Bit(0, i)
  {
  }

  lemma {:induction false} SameBit(x: seq<Byte>, p: nat)
    requires p < 7 * EncodedSize(|x|)
    ensures BitOf(Encoded(x), 7, p) == BitOf(x, 8, p)
  {
    EncodedBit(x, p / 7, p % 7);
    assert 7 * (p / 7) + p % 7 == p;
  }

  lemma {:induction false} EncodedBit(x: seq<Byte>, k: nat, i: nat)
    requires k < EncodedSize(|x|) && i < 7
    ensures Bit(At(Encoded(x), k), i) == BitOf(x, 8, 7 * k + i)
  {
    var q, r := k / 8, k % 8;
    assert k == 8 * q + r && 7 * k + i == 56 * q + 7 * r + i;
    SeptetAt(x, q, r);
    SameBitIn(x, q, r, i);
  }

  lemma {:induction false} SameBitIn(x: seq<Byte>, q: nat, r: nat, i: nat)
    requires r < 8 && i < 7
    ensures Bit(SeptetIn(x, q, r), i) == BitOf(x, 8, 56 * q + 7 * r + i)
  {
    JoinBit(At(x, 7 * q + r - 1), At(x, 7 * q + r), r, i);
    Position(56 * q + 7 * r + i, q, r, i);
  }

  // Where bit p = 56q + 7r + i lies in bytes of eight bits.
  lemma {:induction false} Position(p: nat, q: nat, r: nat, i: nat)
    requires p == 56 * q + 7 * r + i && r < 8 && i < 7
    ensures p / 8 == if i >= r then 7 * q + r else 7 * q + r - 1
    ensures p % 8 == if i >= r then i - r else 8 - r + i
  {
  }

  // ----- the loops -----

  // The counters are unsigned chars; no count here reaches 512.
  function Wrap(k: nat): nat { if k < 256 then k else k - 256 }
  function Next(counter: nat): nat { Wrap(counter + 1) }

  // How far the encoder has got after c bytes, and what stands in the byte after that.
  function Filled(c: nat): nat { c + c / 7 }
  function Pending(x: seq<Byte>, c: nat): Byte
    requires c <= |x|
  {
    if c % 7 == 0 then 0 else Tail(x[c - 1], c % 7 - 1)
  }

  // Places of the output buffer the encoder writes: the encoding, and a zero after a full group.
  function EncoderRoom(n: nat): (room: nat)
    ensures room >= 1
  {
    if n > 223 then 256 else EncodedSize(n) + if n % 7 == 0 then 1 else 0
  }

  /** Encode8to7bits, writing from place base of a larger buffer on. Up to 223 bytes the counter
      does not wrap and the buffer holds the encoding. */
  method Encode8to7bits(buffer: seq<Byte>, out: array<Byte>, base: nat) returns (length: nat)
    requires |buffer| <= 255 && base + EncoderRoom(|buffer|) <= out.Length
    modifies out
    ensures length == Wrap(EncodedSize(|buffer|))
    ensures |buffer| <= 223 ==> out[base..base + length] == Encoded(buffer)
    ensures forall i :: 0 <= i < out.Length && !(base <= i < base + EncoderRoom(|buffer|)) ==> out[i] == old(out[i])
  {
    ghost var plan := MakePlan(buffer);
    length := EncodePlanned(buffer, out, base, plan);
  }

  method EncodePlanned(buffer: seq<Byte>, out: array<Byte>, base: nat, ghost plan: Plan) returns (length: nat)
    requires Planned(buffer, plan) && base + plan.room <= out.Length && Ends(plan, |buffer|)
    modifies out
    ensures length == Wrap(|plan.y|) && (plan.fits ==> out[base..base + length] == plan.y)
    ensures forall i :: 0 <= i < out.Length && !(base <= i < base + plan.room) ==> out[i] == old(out[i])
  {
    out[base] := 0;
    length := EncodeBytes(buffer, out, base, plan);
    if |buffer| % 7 != 0 {
      length := Next(length);
    }
    if plan.fits { Finished(plan, |buffer|, out[..], base, length); }
  }

  /** What the encoder's loop is to write: the septets y, and for each number of bytes the place at
      of the septet begun and its part p; heads and tails are the two parts of each byte. The
      places lie in a room; fits tells that no place is beyond 255. */
  datatype Plan = Plan(y: seq<Byte>, p: seq<Byte>, at: seq<nat>, heads: seq<Byte>, tails: seq<Byte>, room: nat, fits: bool)

  /** The encoder's loop. */
  method EncodeBytes(buffer: seq<Byte>, out: array<Byte>, base: nat, ghost plan: Plan) returns (counter: nat)
    requires Planned(buffer, plan) && base + plan.room <= out.Length && out[base] == 0
    modifies out
    ensures counter == Wrap(plan.at[|buffer|]) && (plan.fits ==> SoFar(plan, |buffer|, out[..], base))
    ensures forall i :: 0 <= i < out.Length && !(base <= i < base + plan.room) ==> out[i] == old(out[i])
  {
    counter := 0;
    var cntByte := 0;
    while cntByte < |buffer|
      invariant cntByte <= |buffer| && counter == Wrap(plan.at[cntByte])
      invariant plan.fits ==> SoFar(plan, cntByte, out[..], base)
      invariant forall i :: 0 <= i < out.Length && !(base <= i < base + plan.room) ==> out[i] == old(out[i])
    {
      counter := EncodeNext(buffer, cntByte, out, base, counter, plan);
      cntByte := cntByte + 1;
    }
  }

  method EncodeNext(buffer: seq<Byte>, cntByte: nat, out: array<Byte>, base: nat, counter: nat, ghost plan: Plan)
    returns (next: nat)
    requires Planned(buffer, plan) && base + plan.room <= out.Length
    requires cntByte < |buffer| && counter == Wrap(plan.at[cntByte])
    requires plan.fits ==> SoFar(plan, cntByte, out[..], base)
    modifies out
    ensures next == Wrap(plan.at[cntByte + 1])
    ensures plan.fits ==> SoFar(plan, cntByte + 1, out[..], base)
    ensures forall i :: 0 <= i < out.Length && !(base <= i < base + plan.room) ==> out[i] == old(out[i])
  {
    ghost var before := out[..];
    next := EncodeAt(buffer, cntByte, out, base, counter, plan);
    if plan.fits { SoFarStep(buffer, plan, cntByte, before, out[..], base); }
  }

  /** The loop's body on the next byte, its two parts and its places taken from the plan. */
  method EncodeAt(buffer: seq<Byte>, c: nat, out: array<Byte>, base: nat, counter: nat, ghost plan: Plan)
    returns (next: nat)
    requires c < |buffer| && Planned(buffer, plan) && base + plan.room <= out.Length && counter == Wrap(plan.at[c])
    modifies out
    ensures next == Wrap(plan.at[c + 1])
    ensures plan.fits ==> counter == plan.at[c] && plan.at[c + 1] < plan.room && base + counter + 1 < out.Length
                          && out[base + counter] == old(out[base + counter]) | plan.heads[c]
                          && out[base + counter + 1] == plan.tails[c]
                          && (c % 7 == 6 ==> base + counter + 2 < out.Length && out[base + counter + 2] == 0)
    ensures plan.fits ==> forall i :: 0 <= i < base + counter ==> out[i] == old(out[i])
    ensures forall i :: 0 <= i < out.Length && !(base <= i < base + plan.room) ==> out[i] == old(out[i])
  {
    assert PartsAt(buffer, plan, c) && PlacesAt(plan, c);
    next := EncodeByte(buffer[c], c % 7, out, base, counter);
  }

  ghost predicate Sized(plan: Plan, n: nat) {
    |plan.p| == |plan.at| == n + 1 && |plan.heads| == |plan.tails| == n && plan.room >= 1
  }

  ghost predicate Planned(x: seq<Byte>, plan: Plan) {
    && Sized(plan, |x|) && plan.p[0] == 0 && plan.at[0] == 0
    && (forall c {:trigger PartsAt(x, plan, c)} :: 0 <= c < |x| ==> PartsAt(x, plan, c))
    && (forall c {:trigger PlannedAt(plan, c)} :: 0 <= c < |x| ==> PlannedAt(plan, c))
    && (forall c {:trigger PlacesAt(plan, c)} :: 0 <= c < |x| ==> PlacesAt(plan, c))
  }

  ghost predicate PartsAt(x: seq<Byte>, plan: Plan, c: nat)
    requires c < |x| && Sized(plan, |x|)
  {
    plan.heads[c] == Head(x[c], c % 7) && plan.tails[c] == Tail(x[c], c % 7)
  }

  // What the encoder makes of byte c.
  ghost predicate PlannedAt(plan: Plan, c: nat)
    requires c < |plan.heads| && Sized(plan, |plan.heads|)
  {
    && plan.at[c] < |plan.y| && plan.y[plan.at[c]] == plan.p[c] | plan.heads[c]
    && (c % 7 == 6 ==> plan.at[c] + 1 < |plan.y| && plan.y[plan.at[c] + 1] == plan.tails[c])
    && plan.p[c + 1] == if c % 7 == 6 then 0 else plan.tails[c]
  }

  // Where byte c goes, given that the counter wraps.
  ghost predicate PlacesAt(plan: Plan, c: nat)
    requires c < |plan.heads| && Sized(plan, |plan.heads|)
  {
    var counter := Wrap(plan.at[c]);
    && counter < 256 && counter < plan.room && Next(counter) < plan.room
    && (c % 7 == 6 ==> Next(Next(counter)) < plan.room)
    && plan.at[c + 1] == plan.at[c] + (if c % 7 == 6 then 2 else 1)
    && Wrap(plan.at[c + 1]) == (if c % 7 == 6 then Next(Next(counter)) else Next(counter))
    && (plan.fits ==> plan.at[c] < 254 && plan.at[c + 1] < plan.room)
  }

  // The output after c bytes: finished septets, then the one begun.
  ghost predicate SoFar(plan: Plan, c: nat, o: seq<Byte>, base: nat)
    requires c < |plan.p| == |plan.at|
  {
    && plan.at[c] <= |plan.y| && base + plan.at[c] < |o| && o[base + plan.at[c]] == plan.p[c]
    && forall k :: 0 <= k < plan.at[c] ==> o[base + k] == plan.y[k]
  }

  lemma {:induction false} SizeOfFilled(n: nat)
    ensures EncodedSize(n) == Filled(n) + if n % 7 != 0 then 1 else 0
    ensures n <= 223 ==> EncodedSize(n) < 256
  {
  }

  // Where the encoding of n bytes ends.
  ghost predicate Ends(plan: Plan, n: nat)
    requires Sized(plan, n)
  {
    && |plan.y| == plan.at[n] + (if n % 7 != 0 then 1 else 0) && plan.at[n] < 512
    && (plan.fits ==> |plan.y| < 256 && |plan.y| <= plan.room)
    && Wrap(|plan.y|) == (if n % 7 != 0 then Next(Wrap(plan.at[n])) else Wrap(plan.at[n]))
    && (n % 7 != 0 ==> plan.y[plan.at[n]] == plan.p[n])
  }

  lemma {:induction false} Finished(plan: Plan, n: nat, o: seq<Byte>, base: nat, length: nat)
    requires n < |plan.p| == |plan.at| && SoFar(plan, n, o, base)
    requires length == |plan.y| == plan.at[n] + (if n % 7 != 0 then 1 else 0) && base + length <= |o|
    requires n % 7 != 0 ==> plan.at[n] < |plan.y| && plan.y[plan.at[n]] == plan.p[n]
    ensures o[base..base + length] == plan.y
  {
  }

  lemma {:induction false} FilledStep(c: nat, n: nat)
    requires c < n
    ensures Filled(c + 1) == Filled(c) + if c % 7 == 6 then 2 else 1
    ensures n <= 223 ==> Filled(c) < 254 && Filled(c + 1) < EncoderRoom(n)
    ensures n <= 255 ==> Filled(c) < 512 && Filled(c + 1) < 300
    ensures n > 223 ==> EncoderRoom(n) == 256
  {
  }

  // The places the encoder touches for byte c lie in its room.
  lemma {:induction false} Places(n: nat, c: nat, counter: nat)
    requires c < n <= 255 && counter == Wrap(Filled(c))
    ensures counter < 256 && counter < EncoderRoom(n) && Next(counter) < EncoderRoom(n)
    ensures c % 7 == 6 ==> Next(Next(counter)) < EncoderRoom(n)
    ensures Wrap(Filled(c + 1)) == if c % 7 == 6 then Next(Next(counter)) else Next(counter)
    ensures n <= 223 ==> counter == Filled(c) < 254 && Filled(c + 1) < EncoderRoom(n)
    ensures n <= 223 ==> Next(counter) == Filled(c) + 1 && (c % 7 == 6 ==> Next(Next(counter)) == Filled(c) + 2)
  {
    FilledStep(c, n);
  }

  lemma {:induction false} SoFarStep(x: seq<Byte>, plan: Plan, c: nat, before: seq<Byte>, after: seq<Byte>, base: nat)
    requires c < |x| && Planned(x, plan) && plan.fits
    requires |before| == |after| && base + plan.room <= |after| && SoFar(plan, c, before, base)
    requires after[base + plan.at[c]] == before[base + plan.at[c]] | plan.heads[c]
    requires base + plan.at[c] + 1 < |after| && after[base + plan.at[c] + 1] == plan.tails[c]
    requires c % 7 == 6 ==> base + plan.at[c] + 2 < |after| && after[base + plan.at[c] + 2] == 0
    requires forall k :: 0 <= k < base + plan.at[c] ==> after[k] == before[k]
    ensures SoFar(plan, c + 1, after, base)
  {
    assert PlannedAt(plan, c) && PlacesAt(plan, c);
  }

  ghost function PlanOf(x: seq<Byte>): (plan: Plan)
    requires |x| <= 255
    ensures Sized(plan, |x|)
  {
    Plan(Encoded(x),
         seq(|x| + 1, c requires 0 <= c <= |x| => Pending(x, c)),
         seq(|x| + 1, c requires 0 <= c <= |x| => Filled(c)),
         seq(|x|, c requires 0 <= c < |x| => Head(x[c], c % 7)),
         seq(|x|, c requires 0 <= c < |x| => Tail(x[c], c % 7)),
         EncoderRoom(|x|), |x| <= 223)
  }

  lemma {:induction false} PlanStepsAt(x: seq<Byte>, c: nat)
    requires c < |x| <= 255
    ensures PlannedAt(PlanOf(x), c)
  {
    PlanStep(x, c);
    var plan, f := PlanOf(x), Filled(c);
    assert plan.at[c] == f && plan.y[f] == Septet(x, f) && plan.p[c] == Pending(x, c);
  }

  lemma {:induction false} PlanPartsAt(x: seq<Byte>, c: nat)
    requires c < |x| <= 255
    ensures PartsAt(x, PlanOf(x), c)
  {
  }

  lemma {:induction false} PlanPlacesAt(x: seq<Byte>, c: nat)
    requires c < |x| <= 255
    ensures PlacesAt(PlanOf(x), c)
  {
    Places(|x|, c, Wrap(Filled(c)));
    FilledStep(c, |x|);
  }

  lemma {:induction false} PlanGood(x: seq<Byte>)
    requires |x| <= 255
    ensures Planned(x, PlanOf(x))
  {
    forall c | 0 <= c < |x| ensures PlannedAt(PlanOf(x), c) && PartsAt(x, PlanOf(x), c) && PlacesAt(PlanOf(x), c) {
      PlanPartsAt(x, c);
      PlanStepsAt(x, c);
      PlanPlacesAt(x, c);
    }
    PlanEnd(x);
  }

  lemma {:induction false} MakePlan(x: seq<Byte>) returns (plan: Plan)
    requires |x| <= 255
    ensures Planned(x, plan) && Ends(plan, |x|) && plan.y == Encoded(x)
    ensures |plan.y| == EncodedSize(|x|) && plan.room == EncoderRoom(|x|) && plan.fits == (|x| <= 223)
  {
    plan := PlanOf(x);
    PlanGood(x);
    PlanEnd(x);
    SizeOfFilled(|x|);
  }

  lemma {:induction false} PlanStep(x: seq<Byte>, c: nat)
    requires c < |x|
    ensures Filled(c) < EncodedSize(|x|) && Septet(x, Filled(c)) == Pending(x, c) | Head(x[c], c % 7)
    ensures c % 7 == 6 ==> Filled(c) + 1 < EncodedSize(|x|) && Septet(x, Filled(c) + 1) == Tail(x[c], c % 7)
    ensures Pending(x, c + 1) == if c % 7 == 6 then 0 else Tail(x[c], c % 7)
  {
    FilledBelow(c, |x|);
    NextSeptet(x, c);
  }

  lemma {:induction false} FilledBelow(c: nat, n: nat)
    requires c < n
    ensures Filled(c) < EncodedSize(n) && (c % 7 == 6 ==> Filled(c) + 1 < EncodedSize(n))
    ensures (c + 1) % 7 == if c % 7 == 6 then 0 else c % 7 + 1
  {
  }

  lemma {:induction false} PlanEnd(x: seq<Byte>)
    ensures Filled(0) == 0 && Pending(x, 0) == 0
    ensures |x| % 7 != 0 ==> Filled(|x|) < EncodedSize(|x|) && Septet(x, Filled(|x|)) == Pending(x, |x|)
  {
    LastSeptet(x);
    SizeOfFilled(|x|);
  }

  /** The body of the encoder's loop. */
  method EncodeByte(b: Byte, shift: nat, out: array<Byte>, base: nat, counter: nat) returns (next: nat)
    requires shift < 7 && counter < 256
    requires base + counter < out.Length && base + Next(counter) < out.Length
    requires shift == 6 ==> base + Next(Next(counter)) < out.Length
    modifies out
    ensures next == if shift == 6 then Next(Next(counter)) else Next(counter)
    ensures counter < 254 ==> out[base + counter] == old(out[base + counter]) | Head(b, shift)
                              && out[base + counter + 1] == Tail(b, shift)
                              && (shift == 6 ==> base + counter + 2 < out.Length && out[base + counter + 2] == 0)
    ensures forall i :: 0 <= i < out.Length && i != base + counter && i != base + Next(counter)
                        && !(shift == 6 && i == base + Next(Next(counter))) ==>
              out[i] == old(out[i])
  {
    var head, tail, last := Parts(b, shift);
    next := counter;
    out[base + next] := out[base + next] | head;
    next := Next(next);
    out[base + next] := tail;
    if last {
      next := Next(next);
      out[base + next] := 0;
    }
  }

  // The masks and what they take out of the byte; the last mask is that of the seventh place.
  method Parts(b: Byte, shift: nat) returns (head: Byte, tail: Byte, last: bool)
    requires shift < 7
    ensures head == Head(b, shift) && tail == Tail(b, shift) && last == (shift == 6)
  {
    var mask1 := 0x7F >> shift;
    var mask2 := mask1 ^ 0xFF;
    head := (b & mask1) << shift;
    tail := (b & mask2) >> (7 - shift);
    last := mask2 == 0xFE;
    LastMask(shift);
  }

  lemma {:induction false} LastMask(s: nat)
    requires s < 7
    ensures Mask2(s) == 0xFE <==> s == 6
  {
    if s == 0 {} else if s == 1 {} else if s == 2 {} else if s == 3 {} else if s == 4 {} else if s == 5 {} else {}
  }

  // The septets a byte completes.
  lemma {:induction false} NextSeptet(x: seq<Byte>, c: nat)
    requires c < |x|
    ensures Septet(x, Filled(c)) == Pending(x, c) | Head(x[c], c % 7)
    ensures c % 7 == 6 ==> Septet(x, Filled(c) + 1) == Tail(x[c], 6)
  {
    var q, r := c / 7, c % 7;
    assert Filled(c) == 8 * q + r && Filled(c) / 8 == q && Filled(c) % 8 == r;
    if r == 6 { assert (Filled(c) + 1) / 8 == q && (Filled(c) + 1) % 8 == 7; }
  }

  lemma {:induction false} LastSeptet(x: seq<Byte>)
    ensures |x| % 7 != 0 ==> Septet(x, Filled(|x|)) == Pending(x, |x|)
  {
    var c := |x|;
    var q, r := c / 7, c % 7;
    assert Filled(c) == 8 * q + r && Filled(c) / 8 == q && Filled(c) % 8 == r;
    HeadOfZero(r);
  }

  lemma {:induction false} HeadOfZero(s: nat)
    requires s < 7
    ensures Head(0, s) == 0
  {
    if s == 0 {} else if s == 1 {} else if s == 2 {} else if s == 3 {} else if s == 4 {} else if s == 5 {} else {}
  }

  /** Decode7to8bits: the result is the decoding of the first length bytes. One more place of the
      output is used for the bits left over. */
  method Decode7to8bits(buffer: seq<Byte>, length: nat, out: array<Byte>) returns (count: nat)
    requires buffer != [] && length <= |buffer| && length <= 255 && DecodedSize(length) < out.Length
    modifies out
    ensures count == DecodedSize(length) && out[..count] == Decoded(buffer[..length])
  {
    count := 0;
    out[0] := buffer[0] & 0x7F;
    FirstByte(buffer[0]);
    ghost var y := buffer[..length];
    var c := 1;
    while c < length
      invariant 1 <= c && (length > 0 ==> c <= length) && (length == 0 ==> count == 0)
      invariant length > 0 ==> count == DecodedSize(c) && out[count] == Low(y[c - 1], (c - 1) % 8)
      invariant length > 0 ==> forall j :: 0 <= j < count ==> out[j] == Octet(y, j)
    {
      NextOctet(y, c);
      count := DecodeByte(buffer[c], c % 8, out, count);
      c := c + 1;
    }
  }

  /** The body of the decoder's loop. */
  method DecodeByte(b: Byte, shift: nat, out: array<Byte>, counter: nat) returns (next: nat)
    requires shift < 8 && counter < 255 && counter + (if shift == 0 then 0 else 1) < out.Length
    modifies out
    ensures next == if shift == 0 then counter else counter + 1
    ensures out[next] == Low(b, shift)
    ensures shift != 0 ==> out[counter] == old(out[counter]) | High(b, shift)
    ensures forall i :: 0 <= i < out.Length && i != counter && i != next ==> out[i] == old(out[i])
  {
    var mask1 := (0x7F >> shift) << shift;
    var mask2 := mask1 ^ 0x7F;
    NoLowMask(shift);
    next := counter;
    if mask2 != 0 {
      out[next] := out[next] | ((b & mask2) << (8 - shift));
      next := next + 1;
    }
    out[next] := (b & mask1) >> shift;
  }

  lemma {:induction false} NoLowMask(s: nat)
    requires s < 8
    ensures DMask2(s) == 0 <==> s == 0
  {
    if s == 0 {} else if s == 1 {} else if s == 2 {} else if s == 3 {} else if s == 4 {} else if s == 5 {}
    else if s == 6 {} else {}
  }

  lemma {:induction false} FirstByte(b: Byte)
    ensures b & 0x7F == Low(b, 0)
  {
  }

  lemma {:induction false} NextOctet(y: seq<Byte>, c: nat)
    requires 1 <= c < |y|
    ensures DecodedSize(c + 1) == DecodedSize(c) + if c % 8 == 0 then 0 else 1
    ensures DecodedSize(c + 1) <= DecodedSize(|y|)
    ensures c % 8 != 0 ==> Octet(y, DecodedSize(c)) == Low(y[c - 1], (c - 1) % 8) | High(y[c], c % 8)
  {
    var q, s := c / 8, c % 8;
    if s != 0 {
      assert DecodedSize(c) == 7 * q + s - 1;
      assert DecodedSize(c) / 7 == q && DecodedSize(c) % 7 == s - 1;
      assert (c - 1) % 8 == s - 1;
    }
  }

  /** What the counter allows: an encoding carries its length exactly for 223 bytes or fewer. */
  lemma {:induction false} FitsCounter(n: nat)
    requires n <= 255
    ensures DecodedSize(Wrap(EncodedSize(n))) == n <==> n <= 223
  {
    SizesMatch(n);
  }
}
