/**
  Base32 block by block, as section 6 of RFC 4648 tables it: five bytes are eight
  digits that spell the same number, a shorter last block is padded with zero bits,
  and blocks do not influence each other.
 */
module Base32Blocks {
  import opened Ascii
  import opened Options
  import opened Sequences
  import opened Numerals
  import opened Base32

  // -------------------------------------------------------------- encoding

  /** The digits one byte completes, and what stays pending, are the pending bits followed by the byte. */
  lemma PushSplits(pending: nat, bits: nat, byte: Byte)
    requires bits < 5 && pending < Pow2(bits)
    ensures var (digits, left, n) := Push(pending, bits, byte);
            && n < 5 && left < Pow2(n) && (forall d <- digits :: d < 32)
            && match bits
               case 0 => n == 3 && |digits| == 1 && digits[0] * 8 + left == byte
               case 1 => n == 4 && |digits| == 1 && digits[0] * 16 + left == pending * 256 + byte
               case 2 => n == 0 && |digits| == 2 && digits[0] * 32 + digits[1] == pending * 256 + byte && left == 0
               case 3 => n == 1 && |digits| == 2 && (digits[0] * 32 + digits[1]) * 2 + left == pending * 256 + byte
               case _ => n == 2 && |digits| == 2 && (digits[0] * 32 + digits[1]) * 4 + left == pending * 256 + byte
  {
    PushRange(pending, bits, byte);
    var wide := pending * 256 + byte;
    assert wide / 2 / 32 == wide / 64 && wide / 4 / 32 == wide / 128;
  }

  /** The state of the encoder after some data: the pending bits and how many they are. */
  function After(pending: nat, bits: nat, data: seq<Byte>): (r: (nat, nat))
    requires bits < 5 && pending < Pow2(bits)
    ensures r.1 < 5 && r.0 < Pow2(r.1)
    decreases data
  {
    if data == [] then (pending, bits)
    else
      PushRange(pending, bits, data[0]);
      After(Push(pending, bits, data[0]).1, Push(pending, bits, data[0]).2, data[1..])
  }

  /** How many bits are pending after `n` more bytes. */
  function Count(bits: nat, n: nat): nat
    decreases n
  {
    if n == 0 then bits else Count(if bits >= 2 then bits - 2 else bits + 3, n - 1)
  }

  lemma {:induction false} CountAfterBlocks(n: nat)
    requires n % 5 == 0
    ensures Count(0, n) == 0
  {
    if n > 0 {
      CountAfterBlocks(n - 5);
      assert n >= 5;
      assert Count(0, n) == Count(3, n - 1) && Count(3, n - 1) == Count(1, n - 2);
      assert Count(1, n - 2) == Count(4, n - 3) && Count(4, n - 3) == Count(2, n - 4);
      assert Count(2, n - 4) == Count(0, n - 5);
    }
  }

  lemma {:induction false} AfterCount(pending: nat, bits: nat, data: seq<Byte>)
    requires bits < 5 && pending < Pow2(bits)
    ensures After(pending, bits, data).1 == Count(bits, |data|)
    decreases data
  {
    if data != [] {
      PushRange(pending, bits, data[0]);
      var (_, left, n) := Push(pending, bits, data[0]);
      AfterCount(left, n, data[1..]);
    }
  }

  /** Digits put out before the end, without the padded one. */
  function Put(pending: nat, bits: nat, data: seq<Byte>): seq<nat>
    requires bits < 5 && pending < Pow2(bits)
    decreases data
  {
    if data == [] then []
    else
      PushRange(pending, bits, data[0]);
      var (digits, left, n) := Push(pending, bits, data[0]);
      digits + Put(left, n, data[1..])
  }

  lemma {:induction false} DigitsAppend(pending: nat, bits: nat, a: seq<Byte>, b: seq<Byte>)
    requires bits < 5 && pending < Pow2(bits)
    ensures var (p, n) := After(pending, bits, a);
            Digits(pending, bits, a + b) == Put(pending, bits, a) + Digits(p, n, b)
    decreases a
  {
    var (p, n) := After(pending, bits, a);
    if a == [] {
      EmptyLeft(b);
      EmptyLeft(Digits(p, n, b));
    } else {
      PushRange(pending, bits, a[0]);
      var (digits, left, m) := Push(pending, bits, a[0]);
      DigitsAppend(left, m, a[1..], b);
      DigitsStep(pending, bits, a[0], a[1..] + b);
      assert [a[0]] + (a[1..] + b) == a + b;
      Assoc(digits, Put(left, m, a[1..]), Digits(p, n, b));
    }
  }

  /** Blocks of five bytes are encoded on their own. */
  lemma EncodedBlockwise(a: seq<Byte>, b: seq<Byte>)
    requires |a| % 5 == 0
    ensures Digits(0, 0, a + b) == Digits(0, 0, a) + Digits(0, 0, b)
  {
    AfterCount(0, 0, a);
    CountAfterBlocks(|a|);
    assert After(0, 0, a) == (0, 0);
    DigitsAppend(0, 0, a, b);
    DigitsAppend(0, 0, a, []);
    assert a + [] == a && Digits(0, 0, []) == [];
    assert Put(0, 0, a) + [] == Put(0, 0, a);
  }

  /** One step of a block: the digits so far and the next. */
  lemma BlockStep(pending: nat, bits: nat, byte: Byte, rest: seq<Byte>)
    requires bits < 5 && pending < Pow2(bits)
    ensures var (digits, left, n) := Push(pending, bits, byte);
            n < 5 && left < Pow2(n) && Digits(pending, bits, [byte] + rest) == digits + Digits(left, n, rest)
  {
    DigitsStep(pending, bits, byte, rest);
  }

  lemma Block5(a: Byte, b: Byte, c: Byte, d: Byte, e: Byte)
    ensures var (x0, p1, _) := Push(0, 0, a);
            p1 < 8 && var (x1, p2, _) := Push(p1, 3, b);
            p2 < 2 && var (x2, p3, _) := Push(p2, 1, c);
            p3 < 16 && var (x3, p4, _) := Push(p3, 4, d);
            p4 < 4 && Digits(0, 0, [a, b, c, d, e]) == x0 + x1 + x2 + x3 + Push(p4, 2, e).0
  {
    PushSplits(0, 0, a);
    var (x0, p1, _) := Push(0, 0, a);
    PushSplits(p1, 3, b);
    var (x1, p2, _) := Push(p1, 3, b);
    PushSplits(p2, 1, c);
    var (x2, p3, _) := Push(p2, 1, c);
    PushSplits(p3, 4, d);
    var (x3, p4, _) := Push(p3, 4, d);
    PushSplits(p4, 2, e);
    BlockStep(0, 0, a, [b, c, d, e]);
    BlockStep(p1, 3, b, [c, d, e]);
    BlockStep(p2, 1, c, [d, e]);
    BlockStep(p3, 4, d, [e]);
    BlockStep(p4, 2, e, []);
    assert [a] + [b, c, d, e] == [a, b, c, d, e] && [b] + [c, d, e] == [b, c, d, e];
    assert [c] + [d, e] == [c, d, e] && [d] + [e] == [d, e] && [e] + [] == [e];
  }

  /** A whole block: eight digits that spell the number the five bytes spell. */
  lemma WholeBlock(a: Byte, b: Byte, c: Byte, d: Byte, e: Byte)
    ensures var digits := Digits(0, 0, [a, b, c, d, e]);
            && |digits| == 8 && (forall x <- digits :: x < 32)
            && Number8(digits) == (((a * 256 + b) * 256 + c) * 256 + d) * 256 + e
  {
    DigitsRange(0, 0, [a, b, c, d, e]);
    Block5(a, b, c, d, e);
    PushSplits(0, 0, a);
    var (x0, p1, _) := Push(0, 0, a);
    PushSplits(p1, 3, b);
    var (x1, p2, _) := Push(p1, 3, b);
    PushSplits(p2, 1, c);
    var (x2, p3, _) := Push(p2, 1, c);
    PushSplits(p3, 4, d);
    var (x3, p4, _) := Push(p3, 4, d);
    PushSplits(p4, 2, e);
    var (x4, p5, _) := Push(p4, 2, e);
    var x := x0 + x1 + x2 + x3 + x4;
    assert x == [x0[0], x1[0], x1[1], x2[0], x3[0], x3[1], x4[0], x4[1]];
  }

  function Number8(x: seq<nat>): nat
    requires |x| == 8
  {
    ((((((x[0] * 32 + x[1]) * 32 + x[2]) * 32 + x[3]) * 32 + x[4]) * 32 + x[5]) * 32 + x[6]) * 32 + x[7]
  }

  /** The shorter blocks: two, four, five or seven digits, the last one padded with zero bits. */
  lemma ShortBlocks(a: Byte, b: Byte, c: Byte, d: Byte)
    ensures var x := Digits(0, 0, [a]);
            |x| == 2 && x[0] * 32 + x[1] == a * 4
    ensures var x := Digits(0, 0, [a, b]);
            |x| == 4 && ((x[0] * 32 + x[1]) * 32 + x[2]) * 32 + x[3] == (a * 256 + b) * 16
    ensures var x := Digits(0, 0, [a, b, c]);
            |x| == 5 && (((x[0] * 32 + x[1]) * 32 + x[2]) * 32 + x[3]) * 32 + x[4] == ((a * 256 + b) * 256 + c) * 2
    ensures var x := Digits(0, 0, [a, b, c, d]);
            |x| == 7 && (((((x[0] * 32 + x[1]) * 32 + x[2]) * 32 + x[3]) * 32 + x[4]) * 32 + x[5]) * 32 + x[6]
                        == (((a * 256 + b) * 256 + c) * 256 + d) * 8
  {
    var (x0, p1, n1) := Push(0, 0, a);
    PushSplits(0, 0, a);
    var (x1, p2, n2) := Push(p1, 3, b);
    PushSplits(p1, 3, b);
    var (x2, p3, n3) := Push(p2, 1, c);
    PushSplits(p2, 1, c);
    var (x3, p4, n4) := Push(p3, 4, d);
    PushSplits(p3, 4, d);
    Block1(a);
    Block2(a, b);
    Block3(a, b, c);
    Block4(a, b, c, d);
  }

  lemma Block1(a: Byte)
    ensures var (x0, p1, _) := Push(0, 0, a); Digits(0, 0, [a]) == x0 + [p1 * 4]
  {
    PushSplits(0, 0, a);
    BlockStep(0, 0, a, []);
    assert [a] + [] == [a];
  }

  lemma Block2(a: Byte, b: Byte)
    ensures var (x0, p1, _) := Push(0, 0, a);
            p1 < 8 && var (x1, p2, _) := Push(p1, 3, b); Digits(0, 0, [a, b]) == x0 + x1 + [p2 * 16]
  {
    PushSplits(0, 0, a);
    var (x0, p1, _) := Push(0, 0, a);
    PushSplits(p1, 3, b);
    BlockStep(0, 0, a, [b]);
    BlockStep(p1, 3, b, []);
    assert [a] + [b] == [a, b] && [b] + [] == [b];
  }

  lemma Block3(a: Byte, b: Byte, c: Byte)
    ensures var (x0, p1, _) := Push(0, 0, a);
            p1 < 8 && var (x1, p2, _) := Push(p1, 3, b);
            p2 < 2 && var (x2, p3, _) := Push(p2, 1, c); Digits(0, 0, [a, b, c]) == x0 + x1 + x2 + [p3 * 2]
  {
    PushSplits(0, 0, a);
    var (x0, p1, _) := Push(0, 0, a);
    PushSplits(p1, 3, b);
    var (x1, p2, _) := Push(p1, 3, b);
    PushSplits(p2, 1, c);
    BlockStep(0, 0, a, [b, c]);
    BlockStep(p1, 3, b, [c]);
    BlockStep(p2, 1, c, []);
    assert [a] + [b, c] == [a, b, c] && [b] + [c] == [b, c] && [c] + [] == [c];
  }

  lemma Block4(a: Byte, b: Byte, c: Byte, d: Byte)
    ensures var (x0, p1, _) := Push(0, 0, a);
            p1 < 8 && var (x1, p2, _) := Push(p1, 3, b);
            p2 < 2 && var (x2, p3, _) := Push(p2, 1, c);
            p3 < 16 && var (x3, p4, _) := Push(p3, 4, d); Digits(0, 0, [a, b, c, d]) == x0 + x1 + x2 + x3 + [p4 * 8]
  {
    PushSplits(0, 0, a);
    var (x0, p1, _) := Push(0, 0, a);
    PushSplits(p1, 3, b);
    var (x1, p2, _) := Push(p1, 3, b);
    PushSplits(p2, 1, c);
    var (x2, p3, _) := Push(p2, 1, c);
    PushSplits(p3, 4, d);
    BlockStep(0, 0, a, [b, c, d]);
    BlockStep(p1, 3, b, [c, d]);
    BlockStep(p2, 1, c, [d]);
    BlockStep(p3, 4, d, []);
    assert [a] + [b, c, d] == [a, b, c, d] && [b] + [c, d] == [b, c, d] && [c] + [d] == [c, d] && [d] + [] == [d];
  }

  // -------------------------------------------------------------- decoding

  /** The byte one digit completes, if any, and what stays pending, are the pending bits followed by the digit. */
  lemma PullSplits(pending: nat, bits: nat, digit: nat)
    requires bits < 8 && pending < Pow2(bits) && digit < 32
    ensures var (bytes, left, n) := Pull(pending, bits, digit);
            && n == (if bits < 3 then bits + 5 else bits - 3) && left < Pow2(n) && (forall b <- bytes :: b < 256)
            && (bits < 3 ==> bytes == [] && left == pending * 32 + digit)
            && (bits >= 3 ==> |bytes| == 1 && Shifted(bytes[0], n) + left == pending * 32 + digit)
  {
  }

  /** One step of a block. */
  lemma UnblockStep(pending: nat, bits: nat, digit: nat, rest: seq<nat>)
    requires bits < 8
    ensures var (bytes, left, n) := Pull(pending, bits, digit);
            Bytes(pending, bits, [digit] + rest) == bytes + Bytes(left, n, rest)
  {
    assert ([digit] + rest)[1..] == rest;
  }

  /** The pending bits after some digits, and how many they are. */
  function AfterDigits(pending: nat, bits: nat, digits: seq<nat>): (r: (nat, nat))
    requires bits < 8
    ensures r.1 < 8
    decreases digits
  {
    if digits == [] then (pending, bits)
    else AfterDigits(Pull(pending, bits, digits[0]).1, Pull(pending, bits, digits[0]).2, digits[1..])
  }

  lemma {:induction false} BytesAppend(pending: nat, bits: nat, a: seq<nat>, b: seq<nat>)
    requires bits < 8
    ensures var (p, n) := AfterDigits(pending, bits, a);
            Bytes(pending, bits, a + b) == Bytes(pending, bits, a) + Bytes(p, n, b)
    decreases a
  {
    var (p, n) := AfterDigits(pending, bits, a);
    if a == [] {
      EmptyLeft(b);
      EmptyLeft(Bytes(p, n, b));
    } else {
      var (bytes, left, m) := Pull(pending, bits, a[0]);
      BytesAppend(left, m, a[1..], b);
      UnblockStep(pending, bits, a[0], a[1..] + b);
      assert [a[0]] + (a[1..] + b) == a + b;
      Assoc(bytes, Bytes(left, m, a[1..]), Bytes(p, n, b));
    }
  }

  /** How many bits are pending after `n` more digits. */
  function CountDigits(bits: nat, n: nat): nat
    decreases n
  {
    if n == 0 then bits else CountDigits(if bits >= 3 then bits - 3 else bits + 5, n - 1)
  }

  lemma {:induction false} CountAfterDigits(n: nat)
    requires n % 8 == 0
    ensures CountDigits(0, n) == 0
  {
    if n > 0 {
      CountAfterDigits(n - 8);
      assert CountDigits(0, n) == CountDigits(5, n - 1) == CountDigits(2, n - 2) == CountDigits(7, n - 3);
      assert CountDigits(7, n - 3) == CountDigits(4, n - 4) == CountDigits(1, n - 5) == CountDigits(6, n - 6);
      assert CountDigits(6, n - 6) == CountDigits(3, n - 7) == CountDigits(0, n - 8);
    }
  }

  lemma {:induction false} AfterDigitsCount(pending: nat, bits: nat, digits: seq<nat>)
    requires bits < 8 && pending < Pow2(bits) && forall d <- digits :: d < 32
    ensures AfterDigits(pending, bits, digits).1 == CountDigits(bits, |digits|)
    ensures AfterDigits(pending, bits, digits).0 < Pow2(AfterDigits(pending, bits, digits).1)
    decreases digits
  {
    if digits != [] {
      assert digits[0] in digits && forall d :: d in digits[1..] ==> d in digits;
      PullSplits(pending, bits, digits[0]);
      var (_, left, n) := Pull(pending, bits, digits[0]);
      AfterDigitsCount(left, n, digits[1..]);
    }
  }

  /** Blocks of eight digits are decoded on their own. */
  lemma DecodedBlockwise(a: seq<nat>, b: seq<nat>)
    requires |a| % 8 == 0 && forall d <- a :: d < 32
    ensures Bytes(0, 0, a + b) == Bytes(0, 0, a) + Bytes(0, 0, b)
  {
    AfterDigitsCount(0, 0, a);
    CountAfterDigits(|a|);
    assert AfterDigits(0, 0, a) == (0, 0);
    BytesAppend(0, 0, a, b);
  }

  /**
    Decoding up to eight digits: the bytes are the number the digits spell without
    its last bits, which do not fill a byte and stay pending.
   */
  predicate Decodes(x: seq<nat>, bytes: seq<nat>, pending: nat) {
    && (forall b <- bytes :: b < 256)
    && Holds(|x|, DigitsNumber(x), |bytes|, BytesNumber(bytes), pending, CountDigits(0, |x|))
  }

  /** `k` bytes of value `v` and `bits` pending bits hold the value `w` of `m` digits. */
  predicate Holds(m: nat, w: nat, k: nat, v: nat, pending: nat, bits: nat) {
    bits < 8 && 8 * k + bits == 5 * m && pending < Pow2(bits) && Shifted(v, bits) + pending == w
  }

  /** `v` with `bits` zero bits behind it. */
  function Shifted(v: nat, bits: nat): nat {
    match bits
    case 0 => v case 1 => v * 2 case 2 => v * 4 case 3 => v * 8
    case 4 => v * 16 case 5 => v * 32 case 6 => v * 64 case _ => v * 128
  }

  lemma HoldsMore(m: nat, w: nat, k: nat, v: nat, pending: nat, bits: nat, digit: nat)
    requires bits < 3 && digit < 32 && Holds(m, w, k, v, pending, bits)
    ensures Holds(m + 1, w * 32 + digit, k, v, pending * 32 + digit, bits + 5)
  {
    match bits
    case 0 => case 1 => case _ =>
  }

  lemma HoldsByte(m: nat, w: nat, k: nat, v: nat, pending: nat, bits: nat, digit: nat, byte: nat, left: nat)
    requires 3 <= bits < 8 && digit < 32 && Holds(m, w, k, v, pending, bits)
    requires left < Pow2(bits - 3) && Shifted(byte, bits - 3) + left == pending * 32 + digit
    ensures Holds(m + 1, w * 32 + digit, k + 1, v * 256 + byte, left, bits - 3)
  {
    match bits
    case 3 => case 4 => case 5 => case 6 => case _ =>
  }

  /** One digit more. */
  lemma DecodesStep(m: nat, w: nat, k: nat, v: nat, pending: nat, bits: nat, digit: nat)
    requires digit < 32 && Holds(m, w, k, v, pending, bits)
    ensures var (more, left, n) := Pull(pending, bits, digit);
            && n == (if bits >= 3 then bits - 3 else bits + 5) && |more| <= 1 && (forall b <- more :: b < 256)
            && Holds(m + 1, w * 32 + digit, k + |more|, if more == [] then v else v * 256 + more[0], left, n)
  {
    var (more, left, n) := Pull(pending, bits, digit);
    PullSplits(pending, bits, digit);
    if bits < 3 {
      HoldsMore(m, w, k, v, pending, bits, digit);
    } else {
      HoldsByte(m, w, k, v, pending, bits, digit, more[0], left);
    }
  }

  lemma NextCount(m: nat)
    requires m < 8
    ensures CountDigits(0, m) < 8
    ensures CountDigits(0, m + 1) == if CountDigits(0, m) >= 3 then CountDigits(0, m) - 3 else CountDigits(0, m) + 5
  {
    FirstCounts();
  }

  lemma ValueMore(bytes: seq<nat>, more: seq<nat>)
    requires |more| <= 1
    ensures BytesNumber(bytes + more) == if more == [] then BytesNumber(bytes) else BytesNumber(bytes) * 256 + more[0]
  {
    if more == [] {
      assert bytes + more == bytes;
    } else {
      assert more == [more[0]];
      BytesLast(bytes, more[0]);
    }
  }

  lemma FirstCounts()
    ensures CountDigits(0, 0) == 0 && CountDigits(0, 1) == 5 && CountDigits(0, 2) == 2 && CountDigits(0, 3) == 7
    ensures CountDigits(0, 4) == 4 && CountDigits(0, 5) == 1 && CountDigits(0, 6) == 6 && CountDigits(0, 7) == 3
    ensures CountDigits(0, 8) == 0
  {
  }

  /**
    Decoding at most eight digits: the number they spell without its last bits, which
    do not fill a byte.
   */
  lemma {:induction false} BlockDecodes(x: seq<nat>) returns (pending: nat)
    requires |x| <= 8 && forall d <- x :: d < 32
    ensures Decodes(x, Bytes(0, 0, x), pending)
    ensures AfterDigits(0, 0, x) == (pending, CountDigits(0, |x|))
  {
    if x == [] {
      pending := 0;
    } else {
      var front, last := x[..|x| - 1], x[|x| - 1];
      assert x == front + [last] && last in x && forall d :: d in front ==> d in x;
      var before := BlockDecodes(front);
      pending := OneDigitMore(front, last, before);
    }
  }

  lemma OneDigitMore(front: seq<nat>, last: nat, before: nat) returns (left: nat)
    requires |front| < 8 && last < 32 && Decodes(front, Bytes(0, 0, front), before)
    requires AfterDigits(0, 0, front) == (before, CountDigits(0, |front|))
    ensures Decodes(front + [last], Bytes(0, 0, front + [last]), left)
    ensures AfterDigits(0, 0, front + [last]) == (left, CountDigits(0, |front| + 1))
  {
    NextCount(|front|);
    left := Pull(before, CountDigits(0, |front|), last).1;
    AfterOneMore(0, 0, front, last);
    LastBytes(front, last, before);
    LongerDecodes(front, last, Bytes(0, 0, front), before);
  }

  lemma LongerDecodes(front: seq<nat>, last: nat, bytes: seq<nat>, before: nat)
    requires |front| < 8 && last < 32 && Decodes(front, bytes, before)
    ensures CountDigits(0, |front|) < 8
    ensures var (more, left, n) := Pull(before, CountDigits(0, |front|), last);
            n == CountDigits(0, |front| + 1) && Decodes(front + [last], bytes + more, left)
  {
    var bits := CountDigits(0, |front|);
    NextCount(|front|);
    var (more, left, n) := Pull(before, bits, last);
    var v := if more == [] then BytesNumber(bytes) else BytesNumber(bytes) * 256 + more[0];
    DecodesStep(|front|, DigitsNumber(front), |bytes|, BytesNumber(bytes), before, bits, last);
    LongerBlock(front, last, bytes, more, left, n, v);
  }

  lemma LongerBlock(front: seq<nat>, last: nat, bytes: seq<nat>, more: seq<nat>, left: nat, bits: nat, v: nat)
    requires |more| <= 1 && v == if more == [] then BytesNumber(bytes) else BytesNumber(bytes) * 256 + more[0]
    requires Holds(|front| + 1, DigitsNumber(front) * 32 + last, |bytes| + |more|, v, left, bits)
    ensures Holds(|front + [last]|, DigitsNumber(front + [last]), |bytes + more|, BytesNumber(bytes + more), left, bits)
  {
    DigitsLast(front, last);
    ValueMore(bytes, more);
    assert BytesNumber(bytes + more) == v;
  }

  lemma LastBytes(front: seq<nat>, last: nat, before: nat)
    requires AfterDigits(0, 0, front) == (before, CountDigits(0, |front|)) && CountDigits(0, |front|) < 8
    ensures Bytes(0, 0, front + [last])
         == Bytes(0, 0, front) + Pull(before, CountDigits(0, |front|), last).0
  {
    var (more, left, n) := Pull(before, CountDigits(0, |front|), last);
    BytesAppend(0, 0, front, [last]);
    UnblockStep(before, CountDigits(0, |front|), last, []);
    assert [last] + [] == [last] && more + [] == more;
  }

  lemma {:induction false} AfterOneMore(pending: nat, bits: nat, a: seq<nat>, digit: nat)
    requires bits < 8
    ensures var (p, n) := AfterDigits(pending, bits, a);
            AfterDigits(pending, bits, a + [digit]) == (Pull(p, n, digit).1, Pull(p, n, digit).2)
    decreases a
  {
    if a == [] {
      assert [] + [digit] == [digit] && [digit][1..] == [];
    } else {
      assert (a + [digit])[0] == a[0] && (a + [digit])[1..] == a[1..] + [digit];
      AfterOneMore(Pull(pending, bits, a[0]).1, Pull(pending, bits, a[0]).2, a[1..], digit);
    }
  }

  // -------------------------------------------------------------- characters

  /** The character of a digit: A to Z, then 2 to 7. */
  function Letter(d: nat): char
    requires d < 32
  {
    if d < 26 then 'A' + d as char else '2' + (d - 26) as char
  }

  /** The encoding writes the digits in that alphabet. */
  lemma EncodingLetters(data: seq<Byte>)
    ensures var digits := Digits(0, 0, data);
            && |Encoded(data)| == |digits|
            && forall i :: 0 <= i < |digits| ==> digits[i] < 32 && Encoded(data)[i] == Letter(digits[i])
  {
    DigitsRange(0, 0, data);
    AlphabetOrder();
  }

  /** Decoding accepts exactly letters of either case, the digits 2 to 7, padding and spaces. */
  lemma AcceptedCharacters(s: string)
    ensures Decoded(s).Some? <==>
            forall c <- s :: 'A' <= c <= 'Z' || 'a' <= c <= 'z' || '2' <= c <= '7' || c == '=' || c == ' '
  {
    DecodeFails(s);
    forall c | c in s
      ensures Ignored(c) || Upper(c) in ALPHABET <==>
              'A' <= c <= 'Z' || 'a' <= c <= 'z' || '2' <= c <= '7' || c == '=' || c == ' '
    {
      InAlphabet(Upper(c));
    }
  }

  lemma InAlphabet(c: char)
    ensures c in ALPHABET <==> 'A' <= c <= 'Z' || '2' <= c <= '7'
  {
    AlphabetOrder();
    if 'A' <= c <= 'Z' {
      assert ALPHABET[c as int - 'A' as int] == c;
    }
    if '2' <= c <= '7' {
      assert ALPHABET[c as int - '2' as int + 26] == c;
    }
  }
}
