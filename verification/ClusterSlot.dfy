/**
 The slot of a key in a Redis Cluster: the CRC16 of the key, or of its hash tag, modulo
 16384 (Redis Cluster Specification, "Key distribution model" and "Hash tags").

 The reference is arithmetic on polynomials over GF(2). A polynomial is the set of the
 exponents whose coefficient is one, so that addition is symmetric difference.
 */
module ClusterSlot {
  import opened RedisKeys
  import Usernames

  type Poly = set<nat>

  function Plus(p: Poly, q: Poly): Poly {
    (p - q) + (q - p)
  }

  function TimesX(p: Poly, k: nat): Poly {
    set e | e in p :: e + k
  }

  /** q times x^16 + x^12 + x^5 + 1. */
  function TimesGenerator(q: Poly): Poly {
    Plus(Plus(TimesX(q, 16), TimesX(q, 12)), Plus(TimesX(q, 5), q))
  }

  predicate Below(p: Poly, degree: nat) {
    forall e | e in p :: e < degree
  }

  /** r is the remainder of p modulo x^16 + x^12 + x^5 + 1. */
  ghost predicate IsRemainder(p: Poly, r: Poly) {
    Below(r, 16) && exists q: Poly :: p == Plus(TimesGenerator(q), r)
  }

  // ---- algebra ----

  lemma InTimesX(p: Poly, k: nat, e: nat)
    ensures e in TimesX(p, k) <==> e >= k && e - k in p
  {
    if e >= k && e - k in p {
      assert (e - k) + k in TimesX(p, k);
    }
  }

  lemma TimesXPlus(p: Poly, q: Poly, k: nat)
    ensures TimesX(Plus(p, q), k) == Plus(TimesX(p, k), TimesX(q, k))
  {
    forall e: nat ensures e in TimesX(Plus(p, q), k) <==> e in Plus(TimesX(p, k), TimesX(q, k)) {
      InTimesX(Plus(p, q), k, e);
      InTimesX(p, k, e);
      InTimesX(q, k, e);
    }
  }

  lemma TimesXTwice(p: Poly, j: nat, k: nat)
    ensures TimesX(TimesX(p, j), k) == TimesX(p, j + k)
  {
    forall e: nat ensures e in TimesX(TimesX(p, j), k) <==> e in TimesX(p, j + k) {
      InTimesX(TimesX(p, j), k, e);
      InTimesX(p, j + k, e);
      if e >= k { InTimesX(p, j, e - k); }
    }
  }

  lemma PlusLaws(p: Poly, q: Poly, r: Poly)
    ensures Plus(p, q) == Plus(q, p)
    ensures Plus(Plus(p, q), r) == Plus(p, Plus(q, r))
    ensures Plus(p, {}) == p && Plus(p, p) == {}
  {
  }

  lemma GeneratorPlus(p: Poly, q: Poly)
    ensures TimesGenerator(Plus(p, q)) == Plus(TimesGenerator(p), TimesGenerator(q))
  {
    TimesXPlus(p, q, 16);
    TimesXPlus(p, q, 12);
    TimesXPlus(p, q, 5);
    Regroup(TimesX(p, 16), TimesX(q, 16), TimesX(p, 12), TimesX(q, 12), TimesX(p, 5), TimesX(q, 5), p, q);
  }

  lemma Regroup(a: Poly, a': Poly, b: Poly, b': Poly, c: Poly, c': Poly, d: Poly, d': Poly)
    ensures Plus(Plus(Plus(a, a'), Plus(b, b')), Plus(Plus(c, c'), Plus(d, d')))
         == Plus(Plus(Plus(a, b), Plus(c, d)), Plus(Plus(a', b'), Plus(c', d')))
  {
    SwapMiddle(a, a', b, b');
    SwapMiddle(c, c', d, d');
    SwapMiddle(Plus(a, b), Plus(a', b'), Plus(c, d), Plus(c', d'));
  }

  lemma SwapMiddle(a: Poly, b: Poly, c: Poly, d: Poly)
    ensures Plus(Plus(a, b), Plus(c, d)) == Plus(Plus(a, c), Plus(b, d))
  {
  }

  lemma GeneratorTimesX(q: Poly, k: nat)
    ensures TimesX(TimesGenerator(q), k) == TimesGenerator(TimesX(q, k))
  {
    TimesXPlus(Plus(TimesX(q, 16), TimesX(q, 12)), Plus(TimesX(q, 5), q), k);
    TimesXPlus(TimesX(q, 16), TimesX(q, 12), k);
    TimesXPlus(TimesX(q, 5), q, k);
    TimesXTwice(q, 16, k);
    TimesXTwice(q, 12, k);
    TimesXTwice(q, 5, k);
    TimesXTwice(q, k, 16);
    TimesXTwice(q, k, 12);
    TimesXTwice(q, k, 5);
  }

  /** The largest exponent. */
  ghost function Degree(p: Poly): (d: nat)
    requires p != {}
    ensures d in p && Below(p, d + 1)
  {
    var e :| e in p;
    if p == {e} then e
    else
      var d := Degree(p - {e});
      assert forall x | x in p :: x == e || x in p - {e};
      if d < e then e else d
  }

  /** A multiple of the generator other than zero has degree at least sixteen. */
  lemma MultiplesAreLarge(q: Poly)
    requires q != {}
    ensures Degree(q) + 16 in TimesGenerator(q)
  {
    var d := Degree(q);
    InTimesX(q, 16, d + 16);
    InTimesX(q, 12, d + 16);
    InTimesX(q, 5, d + 16);
  }

  /** There is only one remainder. */
  lemma RemainderIsUnique(p: Poly, r: Poly, s: Poly)
    requires IsRemainder(p, r) && IsRemainder(p, s)
    ensures r == s
  {
    var a: Poly :| p == Plus(TimesGenerator(a), r);
    var b: Poly :| p == Plus(TimesGenerator(b), s);
    GeneratorPlus(a, b);
    SumsAgree(TimesGenerator(a), r, TimesGenerator(b), s);
    assert TimesGenerator(Plus(a, b)) == Plus(r, s);
    if Plus(a, b) != {} {
      MultiplesAreLarge(Plus(a, b));
      assert false;
    }
    assert TimesGenerator({}) == {};
    assert Plus(r, s) == {};
  }

  lemma SumsAgree(f: Poly, r: Poly, g: Poly, s: Poly)
    requires Plus(f, r) == Plus(g, s)
    ensures Plus(f, g) == Plus(r, s)
  {
    forall e ensures e in Plus(f, g) <==> e in Plus(r, s) {
      assert e in Plus(f, r) <==> e in Plus(g, s);
    }
  }

  // ---- sixteen-bit words as polynomials ----

  function Mask(e: nat): bv16
    requires e < 16
  {
    if e == 0 then 0x0001 else if e == 1 then 0x0002 else if e == 2 then 0x0004 else if e == 3 then 0x0008
    else if e == 4 then 0x0010 else if e == 5 then 0x0020 else if e == 6 then 0x0040 else if e == 7 then 0x0080
    else if e == 8 then 0x0100 else if e == 9 then 0x0200 else if e == 10 then 0x0400 else if e == 11 then 0x0800
    else if e == 12 then 0x1000 else if e == 13 then 0x2000 else if e == 14 then 0x4000 else 0x8000
  }

  predicate Bit(w: bv16, e: nat) {
    e < 16 && w & Mask(e) != 0
  }

  function Bits(w: bv16): Poly {
    set e: nat | e < 16 && Bit(w, e)
  }

  predicate OneBit(m: bv16) {
    m != 0 && m & (m - 1) == 0
  }

  lemma MaskIsOneBit(e: nat)
    requires e < 16
    ensures OneBit(Mask(e))
  {
  }

  lemma XorMasked(v: bv16, w: bv16, m: bv16)
    requires OneBit(m)
    ensures (v ^ w) & m != 0 <==> ((v & m != 0) != (w & m != 0))
  {
  }

  lemma XorBit(v: bv16, w: bv16, e: nat)
    ensures Bit(v ^ w, e) <==> (Bit(v, e) != Bit(w, e))
  {
    hide Mask;
    if e < 16 {
      MaskIsOneBit(e);
      XorMasked(v, w, Mask(e));
    }
  }

  lemma XorBits(v: bv16, w: bv16)
    ensures Bits(v ^ w) == Plus(Bits(v), Bits(w))
  {
    forall e: nat ensures e in Bits(v ^ w) <==> e in Plus(Bits(v), Bits(w)) {
      XorBit(v, w, e);
    }
  }

  lemma ShiftBit(w: bv16, e: nat)
    ensures Bit(w << 1, e) <==> 1 <= e < 16 && Bit(w, e - 1)
  {
  }

  lemma ShiftBits(w: bv16)
    ensures Bits(w << 1) == TimesX(Bits(w) - {15}, 1)
  {
    forall e: nat ensures e in Bits(w << 1) <==> e in TimesX(Bits(w) - {15}, 1) {
      ShiftBit(w, e);
      InTimesX(Bits(w) - {15}, 1, e);
    }
  }

  lemma ByteBit(b: bv8, e: nat)
    ensures Bit((b as bv16) << 8, e) <==> 8 <= e < 16 && Bit(b as bv16, e - 8)
    ensures Bit(b as bv16, e) ==> e < 8
  {
  }

  lemma ByteBits(b: bv8)
    ensures Bits((b as bv16) << 8) == TimesX(Bits(b as bv16), 8)
  {
    var low, high := Bits(b as bv16), Bits((b as bv16) << 8);
    forall e: nat ensures e in high <==> e in TimesX(low, 8) {
      ByteBit(b, e);
      InTimesX(low, 8, e);
      if e >= 8 { ByteBit(b, e - 8); }
    }
  }

  lemma TopBit(w: bv16)
    ensures w & 0x8000 != 0 <==> 15 in Bits(w)
  {
    assert Bit(w, 15) <==> w & 0x8000 != 0 by {
      hide Bits;
      assert Mask(15) == 0x8000;
    }
  }

  lemma GeneratorBits()
    ensures Bits(0x1021) == {12, 5, 0}
    ensures TimesGenerator({0}) == {16, 12, 5, 0}
  {
    forall e: nat ensures e in Bits(0x1021) <==> e in {12, 5, 0} {
    }
    assert TimesX({0}, 16) == {16} && TimesX({0}, 12) == {12} && TimesX({0}, 5) == {5};
  }

  lemma SameMasksSameWord(v: bv16, w: bv16)
    requires (v & 0x0001 != 0) == (w & 0x0001 != 0)
    requires (v & 0x0002 != 0) == (w & 0x0002 != 0)
    requires (v & 0x0004 != 0) == (w & 0x0004 != 0)
    requires (v & 0x0008 != 0) == (w & 0x0008 != 0)
    requires (v & 0x0010 != 0) == (w & 0x0010 != 0)
    requires (v & 0x0020 != 0) == (w & 0x0020 != 0)
    requires (v & 0x0040 != 0) == (w & 0x0040 != 0)
    requires (v & 0x0080 != 0) == (w & 0x0080 != 0)
    requires (v & 0x0100 != 0) == (w & 0x0100 != 0)
    requires (v & 0x0200 != 0) == (w & 0x0200 != 0)
    requires (v & 0x0400 != 0) == (w & 0x0400 != 0)
    requires (v & 0x0800 != 0) == (w & 0x0800 != 0)
    requires (v & 0x1000 != 0) == (w & 0x1000 != 0)
    requires (v & 0x2000 != 0) == (w & 0x2000 != 0)
    requires (v & 0x4000 != 0) == (w & 0x4000 != 0)
    requires (v & 0x8000 != 0) == (w & 0x8000 != 0)
    ensures v == w
  {
  }

  lemma SameBit(v: bv16, w: bv16, e: nat)
    requires Bits(v) == Bits(w) && e < 16
    ensures (v & Mask(e) != 0) == (w & Mask(e) != 0)
  {
    hide Mask;
    assert e in Bits(v) <==> e in Bits(w);
  }

  lemma SameBits0(v: bv16, w: bv16)
    requires Bits(v) == Bits(w)
    ensures (v & 0x0001 != 0) == (w & 0x0001 != 0)
    ensures (v & 0x0002 != 0) == (w & 0x0002 != 0)
    ensures (v & 0x0004 != 0) == (w & 0x0004 != 0)
    ensures (v & 0x0008 != 0) == (w & 0x0008 != 0)
  {
    hide Bits;
    SameBit(v, w, 0);
    SameBit(v, w, 1);
    SameBit(v, w, 2);
    SameBit(v, w, 3);
  }

  lemma SameBits1(v: bv16, w: bv16)
    requires Bits(v) == Bits(w)
    ensures (v & 0x0010 != 0) == (w & 0x0010 != 0)
    ensures (v & 0x0020 != 0) == (w & 0x0020 != 0)
    ensures (v & 0x0040 != 0) == (w & 0x0040 != 0)
    ensures (v & 0x0080 != 0) == (w & 0x0080 != 0)
  {
    hide Bits;
    SameBit(v, w, 4);
    SameBit(v, w, 5);
    SameBit(v, w, 6);
    SameBit(v, w, 7);
  }

  lemma SameBits2(v: bv16, w: bv16)
    requires Bits(v) == Bits(w)
    ensures (v & 0x0100 != 0) == (w & 0x0100 != 0)
    ensures (v & 0x0200 != 0) == (w & 0x0200 != 0)
    ensures (v & 0x0400 != 0) == (w & 0x0400 != 0)
    ensures (v & 0x0800 != 0) == (w & 0x0800 != 0)
  {
    hide Bits;
    SameBit(v, w, 8);
    SameBit(v, w, 9);
    SameBit(v, w, 10);
    SameBit(v, w, 11);
  }

  lemma SameBits3(v: bv16, w: bv16)
    requires Bits(v) == Bits(w)
    ensures (v & 0x1000 != 0) == (w & 0x1000 != 0)
    ensures (v & 0x2000 != 0) == (w & 0x2000 != 0)
    ensures (v & 0x4000 != 0) == (w & 0x4000 != 0)
    ensures (v & 0x8000 != 0) == (w & 0x8000 != 0)
  {
    hide Bits;
    SameBit(v, w, 12);
    SameBit(v, w, 13);
    SameBit(v, w, 14);
    SameBit(v, w, 15);
  }

  lemma SameBitsSameWord(v: bv16, w: bv16)
    requires Bits(v) == Bits(w)
    ensures v == w
  {
    hide Bits;
    SameBits0(v, w);
    SameBits1(v, w);
    SameBits2(v, w);
    SameBits3(v, w);
    SameMasksSameWord(v, w);
  }

  // ---- the checksum ----

  function ByteOf(c: char): bv8 {
    (c as int % 256) as bv8
  }

  /** The bytes of a string as one polynomial, the first byte highest. */
  function Message(s: string): Poly {
    if s == "" then {}
    else Plus(TimesX(Message(s[..|s| - 1]), 8), Bits(ByteOf(s[|s| - 1]) as bv16))
  }

  /** p and r differ by a multiple of the generator. */
  ghost predicate Congruent(p: Poly, r: Poly) {
    exists q: Poly :: p == Plus(TimesGenerator(q), r)
  }

  lemma CongruentPlus(p: Poly, r: Poly, s: Poly)
    requires Congruent(p, r)
    ensures Congruent(Plus(p, s), Plus(r, s))
  {
    var q: Poly :| p == Plus(TimesGenerator(q), r);
    PlusLaws(TimesGenerator(q), r, s);
  }

  lemma CongruentTimesX(p: Poly, r: Poly)
    requires Congruent(p, r)
    ensures Congruent(TimesX(p, 1), TimesX(r, 1))
  {
    var q: Poly :| p == Plus(TimesGenerator(q), r);
    TimesXPlus(TimesGenerator(q), r, 1);
    GeneratorTimesX(q, 1);
  }

  /** Adding the generator once more. */
  lemma CongruentReduce(p: Poly, r: Poly)
    requires Congruent(p, r)
    ensures Congruent(p, Plus(r, TimesGenerator({0})))
  {
    var q: Poly :| p == Plus(TimesGenerator(q), r);
    var g := TimesGenerator({0});
    GeneratorPlus(q, {0});
    AddTwice(TimesGenerator(q), r, g);
    assert p == Plus(TimesGenerator(Plus(q, {0})), Plus(r, g));
  }

  lemma AddTwice(f: Poly, r: Poly, g: Poly)
    ensures Plus(f, r) == Plus(Plus(f, g), Plus(r, g))
  {
  }

  /** One round of the inner loop: multiply by x, and reduce if the top bit falls out. */
  function Round(crc: bv16): bv16 {
    if crc & 0x8000 != 0 then (crc << 1) ^ 0x1021 else crc << 1
  }

  lemma RoundIsTimesX(p: Poly, crc: bv16)
    requires Congruent(p, Bits(crc))
    ensures Congruent(TimesX(p, 1), Bits(Round(crc)))
  {
    CongruentTimesX(p, Bits(crc));
    TopBit(crc);
    ShiftBits(crc);
    if crc & 0x8000 != 0 {
      CongruentReduce(TimesX(p, 1), TimesX(Bits(crc), 1));
      XorBits(crc << 1, 0x1021);
      GeneratorBits();
      TopFallsOut(Bits(crc));
    } else {
      assert Bits(crc) - {15} == Bits(crc);
    }
  }

  lemma TopFallsOut(p: Poly)
    requires 15 in p
    ensures Plus(TimesX(p, 1), {16, 12, 5, 0}) == Plus(TimesX(p - {15}, 1), {12, 5, 0})
    {
    forall e: nat
      ensures e in Plus(TimesX(p, 1), {16, 12, 5, 0}) <==> e in Plus(TimesX(p - {15}, 1), {12, 5, 0})
    {
      InTimesX(p, 1, e);
      InTimesX(p - {15}, 1, e);
    }
  }

  /** What a byte does to the message, above the sixteen zero bits that follow it. */
  lemma MessageStep(m: Poly, b: Poly)
    ensures TimesX(Plus(TimesX(m, 8), b), 16) == TimesX(Plus(TimesX(m, 16), TimesX(b, 8)), 8)
  {
    hide TimesX, Plus;
    TimesXPlus(TimesX(m, 8), b, 16);
    TimesXTwice(m, 8, 16);
    TimesXPlus(TimesX(m, 16), TimesX(b, 8), 8);
    TimesXTwice(m, 16, 8);
    TimesXTwice(b, 8, 8);
  }

  /** One byte: into the top of the register, then eight rounds. */
  method CrcByte(before: bv16, b: bv8, ghost m: Poly) returns (crc: bv16)
    requires Congruent(TimesX(m, 16), Bits(before))
    ensures Congruent(TimesX(Plus(TimesX(m, 8), Bits(b as bv16)), 16), Bits(crc))
  {
    hide Bits, TimesX, Plus, Congruent;
    ghost var p := Plus(TimesX(m, 16), TimesX(Bits(b as bv16), 8));
    CongruentPlus(TimesX(m, 16), Bits(before), TimesX(Bits(b as bv16), 8));
    XorBits(before, (b as bv16) << 8);
    ByteBits(b);
    crc := before ^ ((b as bv16) << 8);
    TimesXZero(p);
    for bit := 0 to 8
      invariant Congruent(TimesX(p, bit), Bits(crc))
    {
      RoundIsTimesX(TimesX(p, bit), crc);
      TimesXTwice(p, bit, 1);
      if crc & 0x8000 != 0 {
        crc := (crc << 1) ^ 0x1021;
        continue;
      }
      crc := crc << 1;
    }
    MessageStep(m, Bits(b as bv16));
  }

  /** The bitwise checksum is the remainder of the message times x^16. */
  method Crc16(s: string) returns (crc: bv16)
    ensures IsRemainder(TimesX(Message(s), 16), Bits(crc))
  {
    crc := 0;
    CrcStart();
    for i := 0 to |s|
      invariant Congruent(TimesX(Message(s[..i]), 16), Bits(crc))
    {
      assert s[..i + 1][..i] == s[..i];
      crc := CrcByte(crc, ByteOf(s[i]), Message(s[..i]));
    }
    assert s[..|s|] == s;
  }

  lemma TimesXZero(p: Poly)
    ensures TimesX(p, 0) == p
  {
    forall e: nat ensures e in TimesX(p, 0) <==> e in p {
      InTimesX(p, 0, e);
    }
  }

  lemma CrcStart()
    ensures Congruent(TimesX(Message(""), 16), Bits(0))
  {
    assert Bits(0) == {} && TimesX({}, 16) == {};
    assert TimesGenerator({}) == {};
  }

  // ---- hash tags and slots ----

  /** redisHashSlotKey: the part of the key between the first braces, if there is any. */
  function HashSlotKey(key: string): string {
    var start := Usernames.IndexOf(key, '{');
    if start == |key| then key
    else
      var end := Usernames.IndexOf(key[start + 1..], '}');
      if end == |key[start + 1..]| || end == 0 then key else key[start + 1..start + 1 + end]
  }

  /** The hash tag as the specification has it: first brace, first closing brace after it, not empty. */
  ghost predicate IsHashTag(key: string, tag: string) {
    exists start: nat, end: nat ::
      && start + 1 < end < |key| && key[start] == '{' && key[end] == '}'
      && '{' !in key[..start] && '}' !in key[start + 1..end] && tag == key[start + 1..end]
  }

  lemma TagIsHashed(key: string, tag: string)
    requires IsHashTag(key, tag)
    ensures HashSlotKey(key) == tag && |tag| < |key|
  {
    var s: nat, e: nat :| s + 1 < e < |key| && key[s] == '{' && key[e] == '}'
      && '{' !in key[..s] && '}' !in key[s + 1..e] && tag == key[s + 1..e];
    var rest := key[s + 1..];
    assert rest[..e - s - 1] == key[s + 1..e] && rest[e - s - 1] == '}';
    HashedBetween(key, s, e - s - 1);
  }

  lemma HashedBetween(key: string, start: nat, length: nat)
    requires 0 < length && start + 1 + length < |key| && key[start] == '{' && '{' !in key[..start]
    requires key[start + 1..][length] == '}' && '}' !in key[start + 1..][..length]
    ensures HashSlotKey(key) == key[start + 1..start + 1 + length]
  {
    FirstIsFirst(key, '{', start);
    FirstIsFirst(key[start + 1..], '}', length);
    hide Usernames.IndexOf;
  }

  lemma HashedIsTag(key: string)
    requires HashSlotKey(key) != key
    ensures IsHashTag(key, HashSlotKey(key))
  {
    hide Usernames.IndexOf;
    var start := Usernames.IndexOf(key, '{');
    var rest := key[start + 1..];
    var end := Usernames.IndexOf(rest, '}');
    assert key[start + 1..start + 1 + end] == rest[..end];
    assert key[start + 1 + end] == rest[end];
  }

  /** The key hashed is the hash tag if there is one, else the key. */
  lemma HashSlotKeyIsTag(key: string)
    ensures forall tag :: IsHashTag(key, tag) ==> HashSlotKey(key) == tag
    ensures (forall tag :: !IsHashTag(key, tag)) ==> HashSlotKey(key) == key
  {
    forall tag | IsHashTag(key, tag) ensures HashSlotKey(key) == tag {
      TagIsHashed(key, tag);
    }
    if HashSlotKey(key) != key {
      HashedIsTag(key);
    }
  }

  lemma FirstIsFirst(s: string, c: char, n: nat)
    requires n < |s| && s[n] == c && c !in s[..n]
    ensures Usernames.IndexOf(s, c) == n
  {
    var m := Usernames.IndexOf(s, c);
    assert s[n] == c && n >= m;
  }

  /** A key with a tag in it is hashed by that tag, whatever comes after. */
  lemma TaggedKey(prefix: string, tag: string, suffix: string)
    requires '{' !in prefix && '}' !in tag && tag != ""
    ensures HashSlotKey(prefix + "{" + tag + "}" + suffix) == tag
  {
    var key := prefix + "{" + tag + "}" + suffix;
    assert key[..|prefix|] == prefix;
    var rest := key[|prefix| + 1..];
    assert rest[..|tag|] == tag;
    HashedBetween(key, |prefix|, |tag|);
  }

  /** The slot: the low fourteen bits of the remainder. */
  ghost predicate HasSlot(key: string, slot: bv16) {
    exists r: Poly :: IsRemainder(TimesX(Message(HashSlotKey(key)), 16), r) && Bits(slot) == Low(r)
  }

  function Low(r: Poly): Poly {
    set e | e in r && e < 14
  }

  lemma LowBit(w: bv16, e: nat)
    ensures Bit(w % 16384, e) <==> e < 14 && Bit(w, e)
    ensures w % 16384 < 16384
  {
  }

  lemma LowBits(w: bv16)
    ensures Bits(w % 16384) == Low(Bits(w))
  {
    forall e: nat ensures e in Bits(w % 16384) <==> e in Low(Bits(w)) {
      LowBit(w, e);
    }
  }

  /** redisClusterSlot computes the slot of the specification. */
  method RedisClusterSlot(key: string) returns (slot: bv16)
    ensures HasSlot(key, slot) && slot < 16384
  {
    var crc := Crc16(HashSlotKey(key));
    LowBits(crc);
    LowBit(crc, 0);
    slot := crc % 16384;
  }

  /** Keys that hash the same part have the same slot, and a key has one slot only. */
  lemma SlotsAgree(a: string, b: string, slotA: bv16, slotB: bv16)
    requires HashSlotKey(a) == HashSlotKey(b) && HasSlot(a, slotA) && HasSlot(b, slotB)
    ensures slotA == slotB
  {
    var r: Poly :| IsRemainder(TimesX(Message(HashSlotKey(a)), 16), r) && Bits(slotA) == Low(r);
    var s: Poly :| IsRemainder(TimesX(Message(HashSlotKey(b)), 16), s) && Bits(slotB) == Low(s);
    RemainderIsUnique(TimesX(Message(HashSlotKey(a)), 16), r, s);
    SameBitsSameWord(slotA, slotB);
  }

  lemma Regrouped(a: string, b: string, c: string, d: string, e: string)
    ensures a + (b + c + d) + e == a + b + c + d + e
  {
  }

  lemma RoutePartIsTagged(prefix: string, route: Route, suffix: string)
    requires route.Valid() && '{' !in prefix
    ensures HashSlotKey(prefix + route.Tag() + suffix) == route.TagBody()
  {
    TagBodyIsPlain(route);
    hide Decimal, HashSlotKey, Route.TagBody, Route.Valid;
    TaggedKey(prefix, route.TagBody(), suffix);
    Regrouped(prefix, "{", route.TagBody(), "}", suffix);
  }

  /** A key of two pieces around the tag. */
  lemma FieldIsTagged(prefix: string, route: Route, field: string, session: string)
    requires route.Valid() && '{' !in prefix
    ensures HashSlotKey(prefix + route.Tag() + field + session) == route.TagBody()
  {
    hide HashSlotKey, Decimal, Route.Tag;
    RoutePartIsTagged(prefix, route, field + session);
    assert prefix + route.Tag() + field + session == prefix + route.Tag() + (field + session);
  }

  lemma RouteKeyIsTagged(key: string, session: string, route: Route)
    requires route.Valid() && BuiltFrom(key, session, route)
    ensures HashSlotKey(key) == route.TagBody()
  {
    hide HashSlotKey, Decimal, Route.Tag, Route.TagBody;
    FieldIsTagged("match:", route, ":", session);
    FieldIsTagged("recent_match:", route, ":", session);
    FieldIsTagged("session:", route, ":data:", session);
    FieldIsTagged("session:", route, ":ip:", session);
    FieldIsTagged("session:", route, ":token:", session);
    FieldIsTagged("session:", route, ":owner:", session);
    FieldIsTagged("webrtc:", route, ":owner:", session);
    FieldIsTagged("webrtc:", route, ":ready:", session);
    FieldIsTagged("webrtc:", route, ":pending:", session);
  }

  lemma TagBodyIsPlain(route: Route)
    requires route.Valid()
    ensures '}' !in route.TagBody() && route.TagBody() != ""
  {
    ModeIsPlain(route);
    var number := Decimal(route.shard);
    assert '}' !in number;
  }

  /** All keys built from one valid route are in one slot, whatever the session IDs contain. */
  lemma RouteKeysShareASlot(route: Route, a: string, b: string, sessionA: string, sessionB: string,
                            slotA: bv16, slotB: bv16)
    requires route.Valid() && BuiltFrom(a, sessionA, route) && BuiltFrom(b, sessionB, route)
    requires HasSlot(a, slotA) && HasSlot(b, slotB)
    ensures slotA == slotB
  {
    RouteKeyIsTagged(a, sessionA, route);
    RouteKeyIsTagged(b, sessionB, route);
    SlotsAgree(a, b, slotA, slotB);
  }
}
