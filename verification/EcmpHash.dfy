/** The flow hash that picks among equal-cost next hops (a MurmurHash3 variant), on 32-bit words. */
module EcmpHash {

  // ---- Words in memory (little-endian) ----

  function LoadWord(key: seq<bv8>, i: nat): bv32
    requires i + 4 <= |key|
  {
    (key[i] as bv32) | ((key[i + 1] as bv32) << 8) | ((key[i + 2] as bv32) << 16) | ((key[i + 3] as bv32) << 24)
  }

  function StoreWord(w: bv32): (s: seq<bv8>)
    ensures |s| == 4
  {
    [(w & 0xff) as bv8, ((w >> 8) & 0xff) as bv8, ((w >> 16) & 0xff) as bv8, ((w >> 24) & 0xff) as bv8]
  }

  lemma LoadStore(w: bv32)
    ensures LoadWord(StoreWord(w), 0) == w
  {
  }

  // ---- Words as numbers ----

  // The value of four bytes, the lowest first.
  function Value(b0: bv8, b1: bv8, b2: bv8, b3: bv8): (n: nat)
    ensures n < 0x1_0000_0000
  {
    b0 as nat + 0x100 * b1 as nat + 0x1_0000 * b2 as nat + 0x100_0000 * b3 as nat
  }

  function Number(w: bv32): (n: nat)
    ensures n < 0x1_0000_0000
  {
    var s := StoreWord(w);
    Value(s[0], s[1], s[2], s[3])
  }

  function ByteOf(n: nat): bv8 { (n % 0x100) as bv8 }

  // The word of a number, modulo 2^32.
  function WordOf(n: nat): bv32 {
    LoadWord([ByteOf(n), ByteOf(n / 0x100), ByteOf(n / 0x100 / 0x100), ByteOf(n / 0x100 / 0x100 / 0x100)], 0)
  }

  lemma StoreLoad(b0: bv8, b1: bv8, b2: bv8, b3: bv8)
    ensures StoreWord(LoadWord([b0, b1, b2, b3], 0)) == [b0, b1, b2, b3]
  {
  }

  lemma NextByte(b: bv8)
    requires b != 0xff
    ensures (b + 1) as nat == b as nat + 1
  {
  }

  lemma {:induction false} ByteWith(n: nat) returns (b: bv8)
    requires n < 0x100
    ensures b as nat == n
  {
    if n == 0 {
      b := 0;
    } else {
      var c := ByteWith(n - 1);
      var last: bv8 := 0xff;
      assert last as nat == 0xff;
      NextByte(c);
      b := c + 1;
    }
  }

  lemma ByteOfNumber(n: nat)
    ensures ByteOf(n) as nat == n % 0x100
  {
    var b := ByteWith(n % 0x100);
    assert (b as nat) as bv8 == b;
  }

  lemma Digits(n: nat, q1: nat, q2: nat, q3: nat)
    requires q1 == n / 0x100 && q2 == q1 / 0x100 && q3 == q2 / 0x100
    ensures n % 0x100 + 0x100 * (q1 % 0x100) + 0x1_0000 * (q2 % 0x100) + 0x100_0000 * (q3 % 0x100) == n % 0x1_0000_0000
  {
    var q4 := q3 / 0x100;
    var s := n % 0x100 + 0x100 * (q1 % 0x100) + 0x1_0000 * (q2 % 0x100) + 0x100_0000 * (q3 % 0x100);
    assert n == s + 0x1_0000_0000 * q4 && s < 0x1_0000_0000;
  }

  // Reading a word back as a number undoes storing it.
  lemma NumberOfWord(n: nat)
    ensures Number(WordOf(n)) == n % 0x1_0000_0000
  {
    hide StoreWord, LoadWord, ByteOf;
    var q1 := n / 0x100;
    var q2 := q1 / 0x100;
    var q3 := q2 / 0x100;
    StoreLoad(ByteOf(n), ByteOf(q1), ByteOf(q2), ByteOf(q3));
    ByteOfNumber(n);
    ByteOfNumber(q1);
    ByteOfNumber(q2);
    ByteOfNumber(q3);
    Digits(n, q1, q2, q3);
  }

  // ---- The rounds and their inverses ----

  function KeyTimes1(x: bv32): bv32 { x * 0xcc9e2d51 }

  function KeyUntimes1(x: bv32): bv32 { x * 0xdee13bb1 }

  function KeyTimes2(x: bv32): bv32 { x * 0x1b873593 }

  function KeyUntimes2(x: bv32): bv32 { x * 0x56ed309b }

  function Rotl15(x: bv32): bv32 { (x << 15) | (x >> 17) }

  function Rotr15(x: bv32): bv32 { (x << 17) | (x >> 15) }

  function Rotl13(x: bv32): bv32 { (x << 13) | (x >> 19) }

  function Rotr13(x: bv32): bv32 { (x << 19) | (x >> 13) }

  function Stretch(x: bv32): bv32 { x + ((x << 2) + 0xe6546b64) }

  function Unstretch(x: bv32): bv32 { (x - 0xe6546b64) * 0xcccccccd }

  // k *= c1; k = rotl(k, 15); k *= c2
  function Scramble(k: bv32): bv32 { KeyTimes2(Rotl15(KeyTimes1(k))) }

  function Unscramble(k: bv32): bv32 { KeyUntimes1(Rotr15(KeyUntimes2(k))) }

  // h = rotl(h, 13); h += (h << 2) + c
  function Spread(h: bv32): bv32 { Stretch(Rotl13(h)) }

  function Unspread(h: bv32): bv32 { Rotr13(Unstretch(h)) }

  function Xor(x: bv32, y: bv32): bv32 { x ^ y }

  function Absorb(h: bv32, k: bv32): bv32 {
    Spread(Xor(h, Scramble(k)))
  }

  function Fold16(h: bv32): bv32 { h ^ (h >> 16) }

  function Fold13(h: bv32): bv32 { h ^ (h >> 13) }

  function Unfold13(h: bv32): bv32 { h ^ (h >> 13) ^ (h >> 26) }

  function Times1(h: bv32): bv32 { h * 0x85ebca6b }

  function Untimes1(h: bv32): bv32 { h * 0xa5cb9243 }

  function Times2(h: bv32): bv32 { h * 0xc2b2ae35 }

  function Untimes2(h: bv32): bv32 { h * 0x7ed1b41d }

  function Low32(len: nat): bv32 { (len % 0x1_0000_0000) as bv32 }

  function Finish(h: bv32, len: nat): bv32 {
    Fold16(Times2(Fold13(Times1(Fold16(Xor(h, Low32(len)))))))
  }

  function Unfinish(h: bv32, len: nat): bv32 {
    Xor(Fold16(Untimes1(Unfold13(Untimes2(Fold16(h))))), Low32(len))
  }

  // Each lemma below spells one step out and applies its inverse; the inverse laws follow from them.
  lemma KeyTimesExpanded(x: bv32)
    ensures KeyUntimes1(x * 0xcc9e2d51) == x && KeyTimes1(x * 0xdee13bb1) == x
    ensures KeyUntimes2(x * 0x1b873593) == x && KeyTimes2(x * 0x56ed309b) == x
  {
  }

  lemma RotationsExpanded(x: bv32)
    ensures Rotr15((x << 15) | (x >> 17)) == x && Rotl15((x << 17) | (x >> 15)) == x
    ensures Rotr13((x << 13) | (x >> 19)) == x && Rotl13((x << 19) | (x >> 13)) == x
  {
  }

  lemma UnstretchExpanded(x: bv32)
    ensures Unstretch(x + ((x << 2) + 0xe6546b64)) == x
  {
  }

  lemma StretchExpanded(x: bv32)
    ensures Stretch((x - 0xe6546b64) * 0xcccccccd) == x
  {
  }

  lemma KeyTimesInverse(x: bv32)
    ensures KeyUntimes1(KeyTimes1(x)) == x && KeyTimes1(KeyUntimes1(x)) == x
    ensures KeyUntimes2(KeyTimes2(x)) == x && KeyTimes2(KeyUntimes2(x)) == x
  {
    KeyTimesExpanded(x);
  }

  lemma RotationsInverse(x: bv32)
    ensures Rotr15(Rotl15(x)) == x && Rotl15(Rotr15(x)) == x
    ensures Rotr13(Rotl13(x)) == x && Rotl13(Rotr13(x)) == x
  {
    RotationsExpanded(x);
  }

  lemma StretchInverse(x: bv32)
    ensures Unstretch(Stretch(x)) == x && Stretch(Unstretch(x)) == x
  {
    UnstretchExpanded(x);
    StretchExpanded(x);
  }

  lemma ScrambleInverse(k: bv32)
    ensures Unscramble(Scramble(k)) == k && Scramble(Unscramble(k)) == k
  {
    hide KeyTimes1, KeyTimes2, KeyUntimes1, KeyUntimes2, Rotl15, Rotr15;
    KeyTimesInverse(k);
    RotationsInverse(KeyTimes1(k));
    KeyTimesInverse(Rotl15(KeyTimes1(k)));
    RotationsInverse(KeyUntimes2(k));
    KeyTimesInverse(Rotr15(KeyUntimes2(k)));
  }

  lemma SpreadInverse(h: bv32)
    ensures Unspread(Spread(h)) == h && Spread(Unspread(h)) == h
  {
    hide Rotl13, Rotr13, Stretch, Unstretch;
    RotationsInverse(h);
    StretchInverse(Rotl13(h));
    StretchInverse(h);
    RotationsInverse(Unstretch(h));
  }

  lemma Fold16Expanded(h: bv32)
    ensures Fold16(h ^ (h >> 16)) == h
  {
  }

  lemma Fold16Inverse(h: bv32)
    ensures Fold16(Fold16(h)) == h
  {
    Fold16Expanded(h);
  }

  lemma Unfold13Expanded(h: bv32)
    ensures Unfold13(h ^ (h >> 13)) == h
  {
  }

  lemma Fold13Expanded(h: bv32)
    ensures Fold13(h ^ (h >> 13) ^ (h >> 26)) == h
  {
  }

  lemma Fold13Inverse(h: bv32)
    ensures Unfold13(Fold13(h)) == h && Fold13(Unfold13(h)) == h
  {
    Unfold13Expanded(h);
    Fold13Expanded(h);
  }

  lemma Untimes1Expanded(h: bv32)
    ensures Untimes1(h * 0x85ebca6b) == h
  {
  }

  lemma Times1Expanded(h: bv32)
    ensures Times1(h * 0xa5cb9243) == h
  {
  }

  lemma Untimes2Expanded(h: bv32)
    ensures Untimes2(h * 0xc2b2ae35) == h
  {
  }

  lemma Times2Expanded(h: bv32)
    ensures Times2(h * 0x7ed1b41d) == h
  {
  }

  lemma TimesInverse(h: bv32)
    ensures Untimes1(Times1(h)) == h && Times1(Untimes1(h)) == h
    ensures Untimes2(Times2(h)) == h && Times2(Untimes2(h)) == h
  {
    Untimes1Expanded(h);
    Times1Expanded(h);
    Untimes2Expanded(h);
    Times2Expanded(h);
  }

  lemma XorExpanded(x: bv32, y: bv32)
    ensures Xor(x ^ y, y) == x && Xor(x ^ y, x) == y && Xor(x, y ^ x) == y
  {
  }

  lemma XorInverse(x: bv32, y: bv32)
    ensures Xor(Xor(x, y), y) == x && Xor(Xor(x, y), x) == y && Xor(x, Xor(y, x)) == y
  {
    XorExpanded(x, y);
  }

  lemma FinishInverse(h: bv32, len: nat)
    ensures Unfinish(Finish(h, len), len) == h && Finish(Unfinish(h, len), len) == h
  {
    hide Xor, Fold16, Fold13, Unfold13, Times1, Times2, Untimes1, Untimes2, Low32;
    var l := Low32(len);
    // Forwards and back ...
    XorInverse(h, l);
    Fold16Inverse(Xor(h, l));
    TimesInverse(Fold16(Xor(h, l)));
    Fold13Inverse(Times1(Fold16(Xor(h, l))));
    TimesInverse(Fold13(Times1(Fold16(Xor(h, l)))));
    Fold16Inverse(Times2(Fold13(Times1(Fold16(Xor(h, l))))));
    // ... and backwards and forth.
    Fold16Inverse(h);
    TimesInverse(Fold16(h));
    Fold13Inverse(Untimes2(Fold16(h)));
    TimesInverse(Unfold13(Untimes2(Fold16(h))));
    Fold16Inverse(Untimes1(Unfold13(Untimes2(Fold16(h)))));
    XorInverse(Fold16(Untimes1(Unfold13(Untimes2(Fold16(h))))), l);
  }

  // ---- EcmpHash ----

  // The state after the first n full words of the key.
  function Words(key: seq<bv8>, n: nat, seed: bv32): bv32
    requires 4 * n <= |key|
  {
    if n == 0 then seed else Absorb(Words(key, n - 1, seed), LoadWord(key, 4 * (n - 1)))
  }

  function PushByte(k: bv32, b: bv8): bv32 {
    (k << 8) | (b as bv32)
  }

  // The bytes key[lo..], last byte in the highest position.
  function TailWord(key: seq<bv8>, lo: nat): bv32
    requires lo <= |key|
    decreases |key| - lo
  {
    if lo == |key| then 0 else PushByte(TailWord(key, lo + 1), key[lo])
  }

  function Hash(key: seq<bv8>, seed: bv32): bv32 {
    var h := Words(key, |key| / 4, seed);
    var h' := if |key| % 4 == 0 then h else Xor(h, Scramble(TailWord(key, |key| / 4 * 4)));
    Finish(h', |key|)
  }

  method EcmpHash(key: seq<bv8>, seed: bv32) returns (h: bv32)
    ensures h == Hash(key, seed)
  {
    hide Scramble, Spread, Xor, Finish, LoadWord, PushByte;
    h := seed;
    var len := |key|;
    var pos := 0;  // the moving pointer
    if len > 3 {
      var i := len / 4;
      while i > 0
        invariant 0 <= i <= len / 4 && pos == 4 * (len / 4 - i)
        invariant h == Words(key, len / 4 - i, seed)
      {
        var k := LoadWord(key, pos);
        pos := pos + 4;
        k := Scramble(k);
        h := Xor(h, k);
        h := Spread(h);
        i := i - 1;
      }
    }
    if len % 4 != 0 {
      var i := len % 4;
      var k: bv32 := 0;
      ghost var lo := len / 4 * 4;
      pos := pos + i;
      while i > 0
        invariant 0 <= i <= len % 4 && pos == lo + i
        invariant k == TailWord(key, pos)
      {
        pos := pos - 1;
        k := PushByte(k, key[pos]);
        i := i - 1;
      }
      k := Scramble(k);
      h := Xor(h, k);
    }
    h := Finish(h, len);
  }

  // ---- What the hash is, statement by statement in the operators of the source ----

  predicate IsProduct(x: bv32, c: bv32, y: bv32) { y == x * c }

  predicate IsXor(x: bv32, y: bv32, z: bv32) { z == x ^ y }

  predicate IsRotl15(x: bv32, y: bv32) { y == (x << 15) | (x >> 17) }

  predicate IsRotl13(x: bv32, y: bv32) { y == (x << 13) | (x >> 19) }

  predicate IsStretch(x: bv32, y: bv32) { y == x + ((x << 2) + 0xe6546b64) }

  predicate IsFold16(x: bv32, y: bv32) { y == x ^ (x >> 16) }

  predicate IsFold13(x: bv32, y: bv32) { y == x ^ (x >> 13) }

  predicate IsShiftedIn(x: bv32, b: bv8, y: bv32) { y == (x << 8) | (b as bv32) }

  // The bytes of the key from i on, the lowest first, make the word k.
  predicate IsWordAt(key: seq<bv8>, i: nat, k: bv32) {
    && i + 4 <= |key|
    && k == (key[i] as bv32) | ((key[i + 1] as bv32) << 8) | ((key[i + 2] as bv32) << 16) | ((key[i + 3] as bv32) << 24)
  }

  // The values of k and h after each statement for one word ...
  datatype Round = Round(times1: bv32, rotated: bv32, times2: bv32, mixed: bv32, rolled: bv32, next: bv32)

  // ... of the tail, from the state h and the word k on ...
  predicate IsTailRound(h: bv32, k: bv32, r: Round) {
    && IsProduct(k, 0xcc9e2d51, r.times1)
    && IsRotl15(r.times1, r.rotated)
    && IsProduct(r.rotated, 0x1b873593, r.times2)
    && IsXor(h, r.times2, r.mixed)
  }

  // ... and of a full word, which has two statements more.
  predicate IsRound(h: bv32, k: bv32, r: Round) {
    && IsTailRound(h, k, r)
    && IsRotl13(r.mixed, r.rolled)
    && IsStretch(r.rolled, r.next)
  }

  // The values of h after each of the last statements, from the state h on; len is the length, as a word.
  predicate IsFinish(h: bv32, len: bv32, s: seq<bv32>) {
    && |s| == 6
    && IsXor(h, len, s[0])
    && IsFold16(s[0], s[1])
    && IsProduct(s[1], 0x85ebca6b, s[2])
    && IsFold13(s[2], s[3])
    && IsProduct(s[3], 0xc2b2ae35, s[4])
    && IsFold16(s[4], s[5])
  }

  // The bytes from i on are shifted into a word, the last first: ks[j] is the word once byte i + j is in.
  ghost predicate IsTail(key: seq<bv8>, i: nat, ks: seq<bv32>) {
    && |ks| > 0 && i + |ks| - 1 == |key| && ks[|ks| - 1] == 0
    && forall j: nat :: j + 1 < |ks| ==> IsShiftedIn(ks[j + 1], key[i + j], ks[j])
  }

  lemma KeyStepsHold(x: bv32)
    ensures IsProduct(x, 0xcc9e2d51, KeyTimes1(x)) && IsProduct(x, 0x1b873593, KeyTimes2(x))
    ensures IsRotl15(x, Rotl15(x)) && IsRotl13(x, Rotl13(x)) && IsStretch(x, Stretch(x))
  {
  }

  lemma FinalStepsHold(x: bv32)
    ensures IsProduct(x, 0x85ebca6b, Times1(x)) && IsProduct(x, 0xc2b2ae35, Times2(x))
    ensures IsFold16(x, Fold16(x)) && IsFold13(x, Fold13(x))
  {
  }

  lemma XorHolds(x: bv32, y: bv32)
    ensures IsXor(x, y, Xor(x, y))
  {
  }

  lemma LengthHolds(len: nat)
    ensures Low32(len) == (len % 0x1_0000_0000) as bv32
  {
  }

  lemma WordHolds(key: seq<bv8>, i: nat)
    requires i + 4 <= |key|
    ensures IsWordAt(key, i, LoadWord(key, i))
  {
  }

  lemma PushHolds(k: bv32, b: bv8)
    ensures IsShiftedIn(k, b, PushByte(k, b))
  {
  }

  lemma ScrambleHolds(k: bv32) returns (a: bv32, b: bv32)
    ensures IsProduct(k, 0xcc9e2d51, a) && IsRotl15(a, b) && IsProduct(b, 0x1b873593, Scramble(k))
  {
    hide KeyTimes1, KeyTimes2, Rotl15, IsProduct, IsRotl15, IsRotl13, IsStretch;
    a := KeyTimes1(k);
    b := Rotl15(a);
    KeyStepsHold(k);
    KeyStepsHold(a);
    KeyStepsHold(b);
  }

  lemma SpreadHolds(h: bv32) returns (y: bv32)
    ensures IsRotl13(h, y) && IsStretch(y, Spread(h))
  {
    hide Rotl13, Stretch, IsProduct, IsRotl15, IsRotl13, IsStretch;
    y := Rotl13(h);
    KeyStepsHold(h);
    KeyStepsHold(y);
  }

  lemma RoundHolds(h: bv32, k: bv32) returns (r: Round)
    ensures IsRound(h, k, r) && r.next == Absorb(h, k) && r.mixed == Xor(h, Scramble(k))
  {
    hide Scramble, Spread, Xor, IsProduct, IsXor, IsRotl15, IsRotl13, IsStretch;
    var a, b := ScrambleHolds(k);
    var x := Xor(h, Scramble(k));
    XorHolds(h, Scramble(k));
    var y := SpreadHolds(x);
    r := Round(a, b, Scramble(k), x, y, Spread(x));
  }

  lemma FinishHolds(h: bv32, len: nat) returns (s: seq<bv32>)
    ensures IsFinish(h, (len % 0x1_0000_0000) as bv32, s) && s[5] == Finish(h, len)
  {
    hide Times1, Times2, Fold16, Fold13, Xor, Low32, IsProduct, IsXor, IsFold16, IsFold13;
    LengthHolds(len);
    var a := Xor(h, Low32(len));
    var b := Fold16(a);
    var c := Times1(b);
    var d := Fold13(c);
    var e := Times2(d);
    s := [a, b, c, d, e, Fold16(e)];
    XorHolds(h, Low32(len));
    FinalStepsHold(a);
    FinalStepsHold(b);
    FinalStepsHold(c);
    FinalStepsHold(d);
    FinalStepsHold(e);
  }

  lemma {:induction false} TailHolds(key: seq<bv8>, i: nat) returns (ks: seq<bv32>)
    requires i <= |key|
    ensures IsTail(key, i, ks) && ks[0] == TailWord(key, i)
    decreases |key| - i
  {
    hide PushByte, IsShiftedIn;
    if i == |key| {
      ks := [0];
    } else {
      var rest := TailHolds(key, i + 1);
      PushHolds(rest[0], key[i]);
      ks := [TailWord(key, i)] + rest;
      forall j: nat | j + 1 < |ks| ensures IsShiftedIn(ks[j + 1], key[i + j], ks[j]) {
        if j > 0 { assert IsShiftedIn(rest[j], key[i + 1 + (j - 1)], rest[j - 1]); }
      }
    }
  }

  // The i-th time round the loop over full words, from the seed or the state that the last round left.
  predicate IsRoundAt(key: seq<bv8>, seed: bv32, ks: seq<bv32>, rs: seq<Round>, i: nat)
    requires i < |ks| == |rs|
  {
    IsWordAt(key, 4 * i, ks[i]) && IsRound(if i == 0 then seed else rs[i - 1].next, ks[i], rs[i])
  }

  // The loop over the first words of the key.
  ghost predicate IsLoop(key: seq<bv8>, seed: bv32, ks: seq<bv32>, rs: seq<Round>) {
    |ks| == |rs| && forall i: nat :: i < |ks| ==> IsRoundAt(key, seed, ks, rs, i)
  }

  lemma NextRound(key: seq<bv8>, seed: bv32, ks: seq<bv32>, rs: seq<Round>, k: bv32, r: Round)
    requires IsLoop(key, seed, ks, rs)
    requires IsWordAt(key, 4 * |ks|, k) && IsRound(if |rs| == 0 then seed else rs[|rs| - 1].next, k, r)
    ensures IsLoop(key, seed, ks + [k], rs + [r])
  {
    hide IsWordAt, IsRound;
    var ks', rs' := ks + [k], rs + [r];
    forall i: nat | i < |ks'| ensures IsRoundAt(key, seed, ks', rs', i) {
      assert i < |ks| ==> IsRoundAt(key, seed, ks, rs, i);
    }
  }

  lemma {:induction false} LoopHolds(key: seq<bv8>, seed: bv32, n: nat) returns (ks: seq<bv32>, rs: seq<Round>)
    requires n <= |key| / 4
    ensures IsLoop(key, seed, ks, rs) && |ks| == |rs| == n
    ensures Words(key, n, seed) == if n == 0 then seed else rs[n - 1].next
  {
    hide IsWordAt, IsRound, IsRoundAt, LoadWord, Absorb, Xor, Scramble;
    if n == 0 {
      ks, rs := [], [];
    } else {
      ks, rs := LoopHolds(key, seed, n - 1);
      var k := LoadWord(key, 4 * (n - 1));
      WordHolds(key, 4 * (n - 1));
      var r := RoundHolds(Words(key, n - 1, seed), k);
      NextRound(key, seed, ks, rs, k, r);
      ks, rs := ks + [k], rs + [r];
    }
  }

  /**
   * The hash of any key: from the seed through one round for each word; through the first half of a round for
   * the bytes that are left, if any; and through the last statements, with the length.
   */
  lemma HashIs(key: seq<bv8>, seed: bv32)
    returns (ks: seq<bv32>, rs: seq<Round>, tail: seq<bv32>, r: Round, s: seq<bv32>)
    ensures IsLoop(key, seed, ks, rs) && |ks| == |rs| == |key| / 4
    ensures IsTail(key, |key| / 4 * 4, tail) && |tail| > 0
    ensures var h := if |key| < 4 then seed else rs[|key| / 4 - 1].next;
            && IsTailRound(h, tail[0], r)
            && IsFinish(if |key| % 4 == 0 then h else r.mixed, (|key| % 0x1_0000_0000) as bv32, s)
    ensures |s| == 6 && Hash(key, seed) == s[5]
  {
    hide *;
    var n := |key| / 4;
    ks, rs := LoopHolds(key, seed, n);
    var h := Words(key, n, seed);
    tail := TailHolds(key, 4 * n);
    TailNotEmpty(key, 4 * n, tail);
    r := RoundHolds(h, tail[0]);
    RoundStartsAsTail(h, tail[0], r);
    s := FinishHolds(if |key| % 4 == 0 then h else r.mixed, |key|);
    FinishLength(if |key| % 4 == 0 then h else r.mixed, (|key| % 0x1_0000_0000) as bv32, s);
    HashUnfolded(key, seed);
  }

  lemma HashUnfolded(key: seq<bv8>, seed: bv32)
    ensures var h := Words(key, |key| / 4, seed);
      Hash(key, seed) ==
        Finish(if |key| % 4 == 0 then h else Xor(h, Scramble(TailWord(key, |key| / 4 * 4))), |key|)
  {
    hide Words, TailWord, Xor, Scramble, Finish;
  }

  lemma TailNotEmpty(key: seq<bv8>, i: nat, ks: seq<bv32>)
    requires IsTail(key, i, ks)
    ensures |ks| > 0
  {
  }

  lemma RoundStartsAsTail(h: bv32, k: bv32, r: Round)
    requires IsRound(h, k, r)
    ensures IsTailRound(h, k, r)
  {
  }

  lemma FinishLength(h: bv32, len: bv32, s: seq<bv32>)
    requires IsFinish(h, len, s)
    ensures |s| == 6
  {
  }

  // For a flow's twelve bytes: three rounds and the last statements.
  lemma HashOfTwelve(key: seq<bv8>, seed: bv32)
    returns (k0: bv32, k1: bv32, k2: bv32, r0: Round, r1: Round, r2: Round, s: seq<bv32>)
    requires |key| == 12
    ensures IsWordAt(key, 0, k0) && IsWordAt(key, 4, k1) && IsWordAt(key, 8, k2)
    ensures IsRound(seed, k0, r0) && IsRound(r0.next, k1, r1) && IsRound(r1.next, k2, r2)
    ensures IsFinish(r2.next, 12, s) && Hash(key, seed) == s[5]
  {
    hide *;
    var ks, rs, tail, r, t := HashIs(key, seed);
    k0, k1, k2, r0, r1, r2, s := ks[0], ks[1], ks[2], rs[0], rs[1], rs[2], t;
    RoundOfLoop(key, seed, ks, rs, 0);
    RoundOfLoop(key, seed, ks, rs, 1);
    RoundOfLoop(key, seed, ks, rs, 2);
    Twelve();
  }

  lemma RoundOfLoop(key: seq<bv8>, seed: bv32, ks: seq<bv32>, rs: seq<Round>, i: nat)
    requires IsLoop(key, seed, ks, rs) && i < |ks| == |rs|
    ensures IsWordAt(key, 4 * i, ks[i]) && IsRound(if i == 0 then seed else rs[i - 1].next, ks[i], rs[i])
  {
    hide IsWordAt, IsRound;
    assert IsRoundAt(key, seed, ks, rs, i);
  }

  lemma Twelve()
    ensures (12 % 0x1_0000_0000) as bv32 == 12
  {
    hide *;
    assert 12 % 0x1_0000_0000 == 12;
  }

  // ---- For a fixed key, the hash is a bijection of the seed ----

  function Unabsorb(h: bv32, k: bv32): bv32 {
    Xor(Unspread(h), Scramble(k))
  }

  lemma AbsorbInverse(h: bv32, k: bv32)
    ensures Unabsorb(Absorb(h, k), k) == h && Absorb(Unabsorb(h, k), k) == h
  {
    hide Xor, Spread, Unspread, Scramble;
    XorInverse(h, Scramble(k));
    SpreadInverse(Xor(h, Scramble(k)));
    SpreadInverse(h);
    XorInverse(Unspread(h), Scramble(k));
  }

  // The state before the words from..till were absorbed.
  function Unwords(key: seq<bv8>, from: nat, till: nat, h: bv32): bv32
    requires from <= till && 4 * till <= |key|
    decreases till
  {
    if till == from then h else Unwords(key, from, till - 1, Unabsorb(h, LoadWord(key, 4 * (till - 1))))
  }

  lemma {:induction false} UnwordsOfWords(key: seq<bv8>, from: nat, till: nat, seed: bv32)
    requires from <= till && 4 * till <= |key|
    ensures Unwords(key, from, till, Words(key, till, seed)) == Words(key, from, seed)
  {
    if from < till {
      AbsorbInverse(Words(key, till - 1, seed), LoadWord(key, 4 * (till - 1)));
      UnwordsOfWords(key, from, till - 1, seed);
    }
  }

  lemma {:induction false} WordsOfUnwords(key: seq<bv8>, n: nat, h: bv32)
    requires 4 * n <= |key|
    ensures Words(key, n, Unwords(key, 0, n, h)) == h
  {
    if n > 0 {
      var k := LoadWord(key, 4 * (n - 1));
      AbsorbInverse(h, k);
      WordsOfUnwords(key, n - 1, Unabsorb(h, k));
    }
  }

  // The state from which the tail and the final rounds lead to h.
  function BeforeTail(key: seq<bv8>, h: bv32): bv32 {
    var a := Unfinish(h, |key|);
    if |key| % 4 == 0 then a else Xor(a, Scramble(TailWord(key, |key| / 4 * 4)))
  }

  lemma TailInverse(key: seq<bv8>, h: bv32, seed: bv32)
    ensures BeforeTail(key, Hash(key, seed)) == Words(key, |key| / 4, seed)
    ensures BeforeTail(key, h) == Words(key, |key| / 4, seed) ==> Hash(key, seed) == h
  {
    hide Words, TailWord, Scramble, Xor, Finish, Unfinish;
    var w := Words(key, |key| / 4, seed);
    var t := Scramble(TailWord(key, |key| / 4 * 4));
    FinishInverse(if |key| % 4 == 0 then w else Xor(w, t), |key|);
    FinishInverse(h, |key|);
    XorInverse(w, t);
    XorInverse(Unfinish(h, |key|), t);
  }

  function SeedFor(key: seq<bv8>, h: bv32): bv32 {
    Unwords(key, 0, |key| / 4, BeforeTail(key, h))
  }

  // Every hash value comes from exactly one seed, SeedFor(key, h).
  lemma SeedBijection(key: seq<bv8>, seed: bv32, h: bv32)
    ensures Hash(key, seed) == h <==> seed == SeedFor(key, h)
  {
    TailInverse(key, h, seed);
    UnwordsOfWords(key, 0, |key| / 4, seed);
    WordsOfUnwords(key, |key| / 4, BeforeTail(key, h));
    TailInverse(key, h, SeedFor(key, h));
  }

  // ---- With the seed and the rest of the key fixed, it is a bijection of each word ----

  function SetWord(key: seq<bv8>, j: nat, w: bv32): (key': seq<bv8>)
    requires 4 * j + 4 <= |key|
    ensures |key'| == |key|
  {
    key[..4 * j] + StoreWord(w) + key[4 * j + 4..]
  }

  lemma SameBytes(a: seq<bv8>, i: nat, b: seq<bv8>, j: nat)
    requires i + 4 <= |a| && j + 4 <= |b|
    requires a[i] == b[j] && a[i + 1] == b[j + 1] && a[i + 2] == b[j + 2] && a[i + 3] == b[j + 3]
    ensures LoadWord(a, i) == LoadWord(b, j)
  {
  }

  lemma SetWordLoads(key: seq<bv8>, j: nat, w: bv32, i: nat)
    requires 4 * j + 4 <= |key| && 4 * i + 4 <= |key|
    ensures LoadWord(SetWord(key, j, w), 4 * i) == if i == j then w else LoadWord(key, 4 * i)
  {
    hide StoreWord, LoadWord;
    if i == j {
      SameBytes(SetWord(key, j, w), 4 * i, StoreWord(w), 0);
      LoadStore(w);
    } else {
      SameBytes(SetWord(key, j, w), 4 * i, key, 4 * i);
    }
  }

  lemma SetWordTail(key: seq<bv8>, j: nat, w: bv32, lo: nat)
    requires 4 * j + 4 <= lo <= |key|
    ensures TailWord(SetWord(key, j, w), lo) == TailWord(key, lo)
    decreases |key| - lo
  {
  }

  lemma {:induction false} SetWordBefore(key: seq<bv8>, j: nat, w: bv32, n: nat, seed: bv32)
    requires 4 * j + 4 <= |key| && n <= j
    ensures Words(SetWord(key, j, w), n, seed) == Words(key, n, seed)
  {
    if n > 0 {
      SetWordBefore(key, j, w, n - 1, seed);
      SetWordLoads(key, j, w, n - 1);
    }
  }

  lemma {:induction false} SetWordAfter(key: seq<bv8>, j: nat, w: bv32, till: nat, h: bv32)
    requires 4 * j + 4 <= |key| && j + 1 <= till && 4 * till <= |key|
    ensures Unwords(SetWord(key, j, w), j + 1, till, h) == Unwords(key, j + 1, till, h)
    decreases till
  {
    if till > j + 1 {
      SetWordLoads(key, j, w, till - 1);
      SetWordAfter(key, j, w, till - 1, Unabsorb(h, LoadWord(key, 4 * (till - 1))));
    }
  }

  // The word that, at position j, makes the hash h.
  function WordFor(key: seq<bv8>, j: nat, seed: bv32, h: bv32): bv32
    requires 4 * j + 4 <= |key|
  {
    Unscramble(Xor(Unspread(Unwords(key, j + 1, |key| / 4, BeforeTail(key, h))), Words(key, j, seed)))
  }

  lemma AbsorbWord(s: bv32, k: bv32, t: bv32)
    ensures Absorb(s, k) == t <==> k == Unscramble(Xor(Unspread(t), s))
  {
    hide Xor, Spread, Unspread, Scramble, Unscramble;
    SpreadInverse(t);
    SpreadInverse(Xor(s, Scramble(k)));
    ScrambleInverse(k);
    ScrambleInverse(Xor(Unspread(t), s));
    XorInverse(s, Scramble(k));
    XorInverse(s, Unspread(t));
  }

  lemma {:induction false} WordsReach(key: seq<bv8>, from: nat, till: nat, seed: bv32, h: bv32)
    requires from <= till && 4 * till <= |key|
    ensures Words(key, till, seed) == h <==> Words(key, from, seed) == Unwords(key, from, till, h)
    decreases till
  {
    if from < till {
      var k := LoadWord(key, 4 * (till - 1));
      AbsorbInverse(Words(key, till - 1, seed), k);
      AbsorbInverse(h, k);
      WordsReach(key, from, till - 1, seed, Unabsorb(h, k));
    }
  }

  lemma SetWordBeforeTail(key: seq<bv8>, j: nat, w: bv32, h: bv32)
    requires 4 * j + 4 <= |key|
    ensures BeforeTail(SetWord(key, j, w), h) == BeforeTail(key, h)
  {
    SetWordTail(key, j, w, |key| / 4 * 4);
    hide SetWord, TailWord, Unfinish, Scramble, Xor;
  }

  // The state after word j, before the later words.
  lemma AfterWord(key: seq<bv8>, j: nat, w: bv32, seed: bv32)
    requires 4 * j + 4 <= |key|
    ensures Words(SetWord(key, j, w), j + 1, seed) == Absorb(Words(key, j, seed), w)
  {
    hide SetWord, LoadWord, Absorb;
    SetWordBefore(key, j, w, j, seed);
    SetWordLoads(key, j, w, j);
  }

  // Replacing word j by w hashes to h exactly when w is WordFor(key, j, seed, h).
  lemma WordBijection(key: seq<bv8>, j: nat, seed: bv32, w: bv32, h: bv32)
    requires 4 * j + 4 <= |key|
    ensures Hash(SetWord(key, j, w), seed) == h <==> w == WordFor(key, j, seed, h)
  {
    hide SetWord, Hash, Words, Unwords, BeforeTail, Absorb, Xor, Unspread, Unscramble;
    var key', n := SetWord(key, j, w), |key| / 4;
    var goal := BeforeTail(key, h);
    SetWordBeforeTail(key, j, w, h);
    TailInverse(key', h, seed);
    // Peel off the words after position j, on both sides.
    SetWordAfter(key, j, w, n, goal);
    WordsReach(key', j + 1, n, seed, goal);
    AfterWord(key, j, w, seed);
    AbsorbWord(Words(key, j, seed), w, Unwords(key, j + 1, n, goal));
  }

  // ---- GetFlowHash ----

  function NodeAddress(id: bv32): bv32 {
    0x0b000001 + ((id / 256) * 0x00010000) + ((id % 256) * 0x00000100)
  }

  function PortWord(sport: bv16, dport: bv16): bv32 {
    (sport as bv32) | ((dport as bv32) << 16)
  }

  function FlowKey(src: bv32, dst: bv32, sport: bv16, dport: bv16): seq<bv8> {
    StoreWord(NodeAddress(src)) + StoreWord(NodeAddress(dst)) + StoreWord(PortWord(sport, dport))
  }

  function FlowHash(src: bv32, dst: bv32, sport: bv16, dport: bv16, current: bv32): bv32 {
    Hash(FlowKey(src, dst, sport, dport), current)
  }

  // The hash as an unsigned number.
  function FlowHashNumber(src: bv32, dst: bv32, sport: bv16, dport: bv16, current: bv32): (n: nat)
    ensures n < 0x1_0000_0000
  {
    hide FlowHash;
    Number(FlowHash(src, dst, sport, dport, current))
  }

  method GetFlowHash(src: bv32, dst: bv32, sport: bv16, dport: bv16, current: bv32) returns (h: bv32)
    ensures h == FlowHash(src, dst, sport, dport, current)
  {
    var u8 := StoreWord(NodeAddress(src));
    u8 := u8 + StoreWord(NodeAddress(dst));
    u8 := u8 + StoreWord(PortWord(sport, dport));
    h := EcmpHash(u8, current);
  }

  lemma PortsOfWord(s: bv16, d: bv16)
    ensures (PortWord(s, d) & 0xffff) as bv16 == s && (PortWord(s, d) >> 16) as bv16 == d
  {
  }

  lemma PortWordInjective(s: bv16, d: bv16, s': bv16, d': bv16)
    ensures PortWord(s, d) == PortWord(s', d') <==> s == s' && d == d'
  {
    PortsOfWord(s, d);
    PortsOfWord(s', d');
    hide PortWord;
  }

  // Two flows between the same nodes hash alike at a switch only if their ports agree.
  lemma FlowsDoNotCollide(src: bv32, dst: bv32, s: bv16, d: bv16, s': bv16, d': bv16, current: bv32)
    ensures FlowHash(src, dst, s, d, current) == FlowHash(src, dst, s', d', current) <==> s == s' && d == d'
  {
    var key := FlowKey(src, dst, s, d);
    var h := FlowHash(src, dst, s, d, current);
    assert key == SetWord(key, 2, PortWord(s, d));
    assert FlowKey(src, dst, s', d') == SetWord(key, 2, PortWord(s', d'));
    WordBijection(key, 2, current, PortWord(s, d), h);
    WordBijection(key, 2, current, PortWord(s', d'), h);
    PortWordInjective(s, d, s', d');
  }

  // One flow never hashes alike at two switches.
  lemma SwitchesDoNotCollide(src: bv32, dst: bv32, sport: bv16, dport: bv16, current: bv32, current': bv32)
    ensures FlowHash(src, dst, sport, dport, current) == FlowHash(src, dst, sport, dport, current') <==> current == current'
  {
    var key := FlowKey(src, dst, sport, dport);
    SeedBijection(key, current, Hash(key, current));
    SeedBijection(key, current', Hash(key, current));
  }

  function Low24(id: bv32): bv32 { id & 0x00ffffff }

  function IdOf(address: bv32): bv32 { (address - 0x0b000001) >> 8 }

  lemma NodeAddressIs(id: bv32)
    ensures NodeAddress(id) == 0x0b000001 + (id << 8)
  {
  }

  lemma IdOfShifted(id: bv32)
    ensures IdOf(0x0b000001 + (id << 8)) == Low24(id)
    ensures 0x0b000001 + (Low24(id) << 8) == 0x0b000001 + (id << 8)
  {
  }

  lemma NodeAddressesCollide(a: bv32, b: bv32)
    ensures NodeAddress(a) == NodeAddress(b) <==> Low24(a) == Low24(b)
  {
    NodeAddressIs(a);
    NodeAddressIs(b);
    NodeAddressIs(Low24(a));
    NodeAddressIs(Low24(b));
    IdOfShifted(a);
    IdOfShifted(b);
    hide *;
  }

  lemma ReplaceEnd(a: seq<bv8>, b: seq<bv8>, c: seq<bv8>, w: bv32)
    requires |a| == |b| == |c| == 4
    ensures SetWord(a + b + c, 0, w) == StoreWord(w) + b + c && SetWord(a + b + c, 1, w) == a + StoreWord(w) + c
  {
    hide StoreWord;
  }

  lemma SourceAddress(src: bv32, node: bv32, dst: bv32, sport: bv16, dport: bv16, current: bv32)
    ensures FlowHash(src, dst, sport, dport, current) == FlowHash(node, dst, sport, dport, current) <==>
            NodeAddress(src) == NodeAddress(node)
  {
    hide NodeAddress, PortWord, StoreWord, SetWord, Hash, WordFor;
    var key := FlowKey(src, dst, sport, dport);
    var h := FlowHash(src, dst, sport, dport, current);
    var a, b, c := StoreWord(NodeAddress(src)), StoreWord(NodeAddress(dst)), StoreWord(PortWord(sport, dport));
    ReplaceEnd(a, b, c, NodeAddress(src));
    ReplaceEnd(a, b, c, NodeAddress(node));
    WordBijection(key, 0, current, NodeAddress(src), h);
    WordBijection(key, 0, current, NodeAddress(node), h);
  }

  lemma DestinationAddress(src: bv32, dst: bv32, node: bv32, sport: bv16, dport: bv16, current: bv32)
    ensures FlowHash(src, dst, sport, dport, current) == FlowHash(src, node, sport, dport, current) <==>
            NodeAddress(dst) == NodeAddress(node)
  {
    hide NodeAddress, PortWord, StoreWord, SetWord, Hash, WordFor;
    var key := FlowKey(src, dst, sport, dport);
    var h := FlowHash(src, dst, sport, dport, current);
    var a, b, c := StoreWord(NodeAddress(src)), StoreWord(NodeAddress(dst)), StoreWord(PortWord(sport, dport));
    ReplaceEnd(a, b, c, NodeAddress(dst));
    ReplaceEnd(a, b, c, NodeAddress(node));
    WordBijection(key, 1, current, NodeAddress(dst), h);
    WordBijection(key, 1, current, NodeAddress(node), h);
  }

  // Changing one end of a flow changes its hash, unless the two nodes agree modulo 2^24 and so share an address.
  lemma EndsDoNotCollide(src: bv32, dst: bv32, node: bv32, sport: bv16, dport: bv16, current: bv32)
    ensures FlowHash(src, dst, sport, dport, current) == FlowHash(node, dst, sport, dport, current) <==>
            Low24(src) == Low24(node)
    ensures FlowHash(src, dst, sport, dport, current) == FlowHash(src, node, sport, dport, current) <==>
            Low24(dst) == Low24(node)
  {
    hide FlowHash, NodeAddress, Low24;
    SourceAddress(src, node, dst, sport, dport, current);
    DestinationAddress(src, dst, node, sport, dport, current);
    NodeAddressesCollide(src, node);
    NodeAddressesCollide(dst, node);
  }
}
