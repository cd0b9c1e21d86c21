/**
  RFC 4648 base32 as auth.rs computes it: a 64-bit accumulator that silently
  drops its high bits, of which only the low `bits` ever matter.
 */
module Base32 {
  import opened Ascii
  import opened Options
  import opened Sequences

  type Byte = x: int | 0 <= x < 256

  const WORD: nat := 0x1_0000_0000_0000_0000

  const ALPHABET: string := "ABCDEFGHIJKLMNOPQRSTUVWXYZ234567"

  /** Powers of two up to the widest the accumulators hold. */
  function Pow2(n: nat): (p: nat)
    requires n <= 12
    ensures p > 0
  {
    match n
    case 0 => 1 case 1 => 2 case 2 => 4 case 3 => 8 case 4 => 16 case 5 => 32 case 6 => 64
    case 7 => 128 case 8 => 256 case 9 => 512 case 10 => 1024 case 11 => 2048 case _ => 4096
  }

  // ---------------------------------------- machine words as the code uses them

  /** `buffer << n`: the high bits are lost. */
  function Shl(buffer: nat, n: nat): (r: nat)
    requires n <= 12
    ensures r < WORD
  {
    buffer * Pow2(n) % WORD
  }

  /** `(buffer >> n) & mask` for an all-ones mask of `width` bits. */
  function Window(buffer: nat, n: nat, width: nat): nat
    requires n <= 12 && width <= 8
  {
    buffer / Pow2(n) % Pow2(width)
  }

  // ------------------------------------------------------------- reference

  /** Five-bit groups from the top of an `n`-bit value; what is left over stays pending. */
  function Emit(v: nat, n: nat): (seq<nat>, nat, nat)
    requires n <= 12
  {
    if n < 5 then ([], v, n)
    else
      var rest := Emit(v % Pow2(n - 5), n - 5);
      ([v / Pow2(n - 5)] + rest.0, rest.1, rest.2)
  }

  /** One more input byte: section 6 of RFC 4648 read as a table over the pending bits. */
  function Push(pending: nat, bits: nat, byte: Byte): (seq<nat>, nat, nat)
    requires bits < 5
  {
    var wide := pending * 256 + byte;
    match bits
    case 0 => ([wide / 8], wide % 8, 3)
    case 1 => ([wide / 16], wide % 16, 4)
    case 2 => ([wide / 32, wide % 32], 0, 0)
    case 3 => ([wide / 64, wide / 2 % 32], wide % 2, 1)
    case _ => ([wide / 128, wide / 4 % 32], wide % 4, 2)
  }

  lemma EmitOne(v: nat, n: nat)
    requires 5 <= n < 10
    ensures Emit(v, n) == ([v / Pow2(n - 5)], v % Pow2(n - 5), n - 5)
  {
    assert Emit(v % Pow2(n - 5), n - 5) == ([], v % Pow2(n - 5), n - 5);
    assert [v / Pow2(n - 5)] + [] == [v / Pow2(n - 5)];
  }

  lemma EmitTwo(v: nat, n: nat)
    requires 10 <= n <= 12
    ensures Emit(v, n) == ([v / Pow2(n - 5), v % Pow2(n - 5) / Pow2(n - 10)], v % Pow2(n - 5) % Pow2(n - 10), n - 10)
  {
    var w := v % Pow2(n - 5);
    EmitOne(w, n - 5);
    assert [v / Pow2(n - 5)] + [w / Pow2(n - 10)] == [v / Pow2(n - 5), w / Pow2(n - 10)];
  }

  /** The table is what repeated emission of five-bit groups gives. */
  lemma PushEmits(pending: nat, bits: nat, byte: Byte)
    requires bits < 5 && pending < Pow2(bits)
    ensures Emit(pending * 256 + byte, bits + 8) == Push(pending, bits, byte)
  {
    var wide := pending * 256 + byte;
    if bits < 2 {
      EmitOne(wide, bits + 8);
    } else {
      EmitTwo(wide, bits + 8);
      LowDigit(wide);
    }
  }

  lemma LowDigit(wide: nat)
    ensures wide % 64 / 2 == wide / 2 % 32 && wide % 64 % 2 == wide % 2
    ensures wide % 128 / 4 == wide / 4 % 32 && wide % 128 % 4 == wide % 4
  {
    LowDigit3(wide);
    LowDigit4(wide);
  }

  lemma LowDigit3(wide: nat)
    ensures wide % 64 / 2 == wide / 2 % 32 && wide % 64 % 2 == wide % 2
  {
    var q, r := wide / 64, wide % 64;
    assert wide / 2 == 32 * q + r / 2;
  }

  lemma LowDigit4(wide: nat)
    ensures wide % 128 / 4 == wide / 4 % 32 && wide % 128 % 4 == wide % 4
  {
    var q, r := wide / 128, wide % 128;
    assert wide / 4 == 32 * q + r / 4;
  }

  lemma LowBits(pending: nat, byte: Byte)
    ensures (pending * 256 + byte) % 16 == byte % 16
    ensures (pending * 256 + byte) % 4 == byte % 4
    ensures (pending * 256 + byte) % 2 == byte % 2
  {
    DivUnique(pending * 256 + byte, 16, pending * 16 + byte / 16, byte % 16);
    DivUnique(pending * 256 + byte, 4, pending * 64 + byte / 4, byte % 4);
    DivUnique(pending * 256 + byte, 2, pending * 128 + byte / 2, byte % 2);
  }

  lemma PushRange(pending: nat, bits: nat, byte: Byte)
    requires bits < 5 && pending < Pow2(bits)
    ensures var (digits, left, n) := Push(pending, bits, byte);
            n < 5 && left < Pow2(n) && forall d <- digits :: d < 32
  {
  }

  /** The digits of `data` after `bits` pending bits, zero-padded at the end. */
  function Digits(pending: nat, bits: nat, data: seq<Byte>): seq<nat>
    requires bits < 5 && pending < Pow2(bits)
    decreases data
  {
    if data == [] then
      if bits == 0 then [] else [pending * Pow2(5 - bits)]
    else
      PushRange(pending, bits, data[0]);
      var (digits, left, n) := Push(pending, bits, data[0]);
      digits + Digits(left, n, data[1..])
  }

  /** One more digit: the byte it completes, if any, and the bits left pending. */
  function Pull(pending: nat, bits: nat, digit: nat): (seq<nat>, nat, nat)
    requires bits < 8
  {
    var wide := pending * 32 + digit;
    match bits
    case 0 => ([], wide, 5)
    case 1 => ([], wide, 6)
    case 2 => ([], wide, 7)
    case 3 => ([wide], 0, 0)
    case 4 => ([wide / 2], wide % 2, 1)
    case 5 => ([wide / 4], wide % 4, 2)
    case 6 => ([wide / 8], wide % 8, 3)
    case _ => ([wide / 16], wide % 16, 4)
  }

  /** The bytes carried by `digits` after `bits` pending bits; a short tail is dropped. */
  function Bytes(pending: nat, bits: nat, digits: seq<nat>): seq<nat>
    requires bits < 8
    decreases digits
  {
    if digits == [] then []
    else
      var (bytes, left, n) := Pull(pending, bits, digits[0]);
      bytes + Bytes(left, n, digits[1..])
  }

  lemma BytesTwo(pending: nat, bits: nat, a: nat, b: nat, rest: seq<nat>)
    requires bits < 8
    ensures var (x, p, n) := Pull(pending, bits, a);
            var (y, q, m) := Pull(p, n, b);
            Bytes(pending, bits, [a, b] + rest) == x + y + Bytes(q, m, rest)
  {
    var (x, p, n) := Pull(pending, bits, a);
    var (y, q, m) := Pull(p, n, b);
    assert ([a, b] + rest)[1..] == [b] + rest;
    assert ([b] + rest)[1..] == rest;
    assert Bytes(p, n, [b] + rest) == y + Bytes(q, m, rest);
    assert x + (y + Bytes(q, m, rest)) == x + y + Bytes(q, m, rest);
  }

  /** The byte whose top bits the decoder holds and whose low `bits` bits are pending. */
  function Shared(held: nat, bits: nat, pending: nat): seq<nat>
    requires bits < 5
  {
    match bits
    case 0 => []
    case 1 => [held * 2 + pending]
    case 2 => [held * 4 + pending]
    case 3 => [held * 8 + pending]
    case _ => [held * 16 + pending]
  }

  /**
    The decoder lags the encoder by the byte they share: while the encoder holds
    `bits` pending bits the decoder holds the other `8 - bits` of that byte.
   */
  lemma {:induction false} DecodeDigits(pending: nat, bits: nat, held: nat, data: seq<Byte>)
    requires bits < 5 && pending < Pow2(bits)
    requires if bits == 0 then held == 0 else held < Pow2(8 - bits)
    ensures Inverts(pending, bits, held, data)
    decreases data
  {
    if data == [] {
      FinalDigit(pending, bits, held);
    } else {
      var byte, rest := data[0], data[1..];
      HeadTail(data);
      match bits {
        case 0 =>
          DecodeDigits(byte % 8, 3, byte / 8, rest);
          Decode0(byte, rest);
        case 1 =>
          DecodeDigits(byte % 16, 4, byte / 16, rest);
          Decode1(pending, held, byte, rest);
        case 2 =>
          DecodeDigits(0, 0, 0, rest);
          Decode2(pending, held, byte, rest);
        case 3 =>
          DecodeDigits(byte % 2, 1, byte / 2, rest);
          Decode3(pending, held, byte, rest);
        case _ =>
          DecodeDigits(byte % 4, 2, byte / 4, rest);
          Decode4(pending, held, byte, rest);
      }
    }
  }

  /** The decoder, holding its part of the shared byte, recovers that byte and the rest of the data. */
  predicate Inverts(pending: nat, bits: nat, held: nat, data: seq<Byte>)
    requires bits < 5 && pending < Pow2(bits)
  {
    Bytes(held, if bits == 0 then 0 else 8 - bits, Digits(pending, bits, data)) == Shared(held, bits, pending) + data
  }

  lemma DigitsStep(pending: nat, bits: nat, byte: Byte, rest: seq<Byte>)
    requires bits < 5 && pending < Pow2(bits)
    ensures var (digits, left, n) := Push(pending, bits, byte);
            && n < 5 && left < Pow2(n)
            && Digits(pending, bits, [byte] + rest) == digits + Digits(left, n, rest)
  {
    PushRange(pending, bits, byte);
    assert ([byte] + rest)[1..] == rest;
  }

  /** A byte cut at any of the four places is whole again. */
  lemma SharedWhole(byte: Byte)
    ensures Shared(byte / 8, 3, byte % 8) == [byte] && Shared(byte / 16, 4, byte % 16) == [byte]
    ensures Shared(byte / 2, 1, byte % 2) == [byte] && Shared(byte / 4, 2, byte % 4) == [byte]
  {
  }

  /** How the two loops meet over one byte, whatever digits follow. */
  lemma Meet(pending: nat, bits: nat, held: nat, byte: Byte, rest: seq<Byte>, digits: seq<nat>, more: seq<nat>,
             bytes: seq<nat>)
    requires bits < 5 && pending < Pow2(bits)
    requires Digits(pending, bits, [byte] + rest) == digits + more
    requires Bytes(held, if bits == 0 then 0 else 8 - bits, digits + more) == Shared(held, bits, pending) + bytes
    requires bytes == [byte] + rest
    ensures Inverts(pending, bits, held, [byte] + rest)
  {
  }

  /** The same with the decoder left holding part of `byte`. */
  lemma MeetInside(pending: nat, bits: nat, held: nat, byte: Byte, rest: seq<Byte>,
                   digits: seq<nat>, left: nat, n: nat, high: nat)
    requires 0 < bits < 5 && pending < Pow2(bits) && 0 < n < 5 && left < Pow2(n)
    requires Push(pending, bits, byte) == (digits, left, n)
    requires Inverts(left, n, high, rest) && Shared(high, n, left) == [byte]
    requires Bytes(held, 8 - bits, digits + Digits(left, n, rest))
          == Shared(held, bits, pending) + Bytes(high, 8 - n, Digits(left, n, rest))
    ensures Inverts(pending, bits, held, [byte] + rest)
  {
    var more := Digits(left, n, rest);
    DigitsStep(pending, bits, byte, rest);
    Meet(pending, bits, held, byte, rest, digits, more, Bytes(high, 8 - n, more));
  }

  lemma Decode0(byte: Byte, rest: seq<Byte>)
    requires Inverts(byte % 8, 3, byte / 8, rest)
    ensures Inverts(0, 0, 0, [byte] + rest)
  {
    var more := Digits(byte % 8, 3, rest);
    SharedWhole(byte);
    DigitsStep(0, 0, byte, rest);
    PullPush0(byte, more);
    EmptyLeft([byte] + rest);
    Meet(0, 0, 0, byte, rest, [byte / 8], more, [byte] + rest);
  }

  lemma Decode1(pending: nat, held: nat, byte: Byte, rest: seq<Byte>)
    requires pending < 2 && Inverts(byte % 16, 4, byte / 16, rest)
    ensures Inverts(pending, 1, held, [byte] + rest)
  {
    SharedWhole(byte);
    LowBits(pending, byte);
    PullPush1(pending, held, byte, Digits(byte % 16, 4, rest));
    MeetInside(pending, 1, held, byte, rest, [(pending * 256 + byte) / 16], byte % 16, 4, byte / 16);
  }

  lemma Decode2(pending: nat, held: nat, byte: Byte, rest: seq<Byte>)
    requires pending < 4 && Inverts(0, 0, 0, rest)
    ensures Inverts(pending, 2, held, [byte] + rest)
  {
    var wide, more := pending * 256 + byte, Digits(0, 0, rest);
    DigitsStep(pending, 2, byte, rest);
    EmptyLeft(rest);
    assert Bytes(0, 0, more) == rest;
    PullPush2(pending, held, byte, more);
    Meet(pending, 2, held, byte, rest, [wide / 32, wide % 32], more, [byte] + Bytes(0, 0, more));
  }

  lemma Decode3(pending: nat, held: nat, byte: Byte, rest: seq<Byte>)
    requires pending < 8 && Inverts(byte % 2, 1, byte / 2, rest)
    ensures Inverts(pending, 3, held, [byte] + rest)
  {
    var wide := pending * 256 + byte;
    SharedWhole(byte);
    LowBits(pending, byte);
    PullPush3(pending, held, byte, Digits(byte % 2, 1, rest));
    MeetInside(pending, 3, held, byte, rest, [wide / 64, wide / 2 % 32], byte % 2, 1, byte / 2);
  }

  lemma Decode4(pending: nat, held: nat, byte: Byte, rest: seq<Byte>)
    requires pending < 16 && Inverts(byte % 4, 2, byte / 4, rest)
    ensures Inverts(pending, 4, held, [byte] + rest)
  {
    var wide := pending * 256 + byte;
    SharedWhole(byte);
    LowBits(pending, byte);
    PullPush4(pending, held, byte, Digits(byte % 4, 2, rest));
    MeetInside(pending, 4, held, byte, rest, [wide / 128, wide / 4 % 32], byte % 4, 2, byte / 4);
  }

  lemma FinalDigit(pending: nat, bits: nat, held: nat)
    requires bits < 5 && pending < Pow2(bits)
    requires if bits == 0 then held == 0 else held < Pow2(8 - bits)
    ensures Bytes(held, if bits == 0 then 0 else 8 - bits, Digits(pending, bits, []))
         == Shared(held, bits, pending)
  {
    if bits != 0 {
      var d := pending * Pow2(5 - bits);
      assert Digits(pending, bits, []) == [d];
      assert [d][1..] == [];
      var (bytes, left, n) := Pull(held, 8 - bits, d);
      assert bytes == Shared(held, bits, pending);
      assert Bytes(left, n, []) == [];
    }
  }

  // Pulling the digits of one pushed byte completes the shared byte and starts the next.

  lemma PullPush0(byte: Byte, more: seq<nat>)
    ensures Bytes(0, 0, [byte / 8] + more) == Bytes(byte / 8, 5, more)
  {
    assert ([byte / 8] + more)[1..] == more;
  }

  lemma PullPush1(pending: nat, held: nat, byte: Byte, more: seq<nat>)
    requires pending < 2
    ensures Bytes(held, 7, [(pending * 256 + byte) / 16] + more) == [held * 2 + pending] + Bytes(byte / 16, 4, more)
  {
    var wide := pending * 256 + byte;
    assert ([wide / 16] + more)[1..] == more;
    assert wide / 16 == pending * 16 + byte / 16;
    assert Pull(held, 7, wide / 16) == ([held * 2 + pending], byte / 16, 4);
  }

  lemma PullPush2(pending: nat, held: nat, byte: Byte, more: seq<nat>)
    requires pending < 4
    ensures var wide := pending * 256 + byte;
            Bytes(held, 6, [wide / 32, wide % 32] + more) == [held * 4 + pending] + ([byte] + Bytes(0, 0, more))
  {
    var wide := pending * 256 + byte;
    assert wide / 32 == pending * 8 + byte / 32 && wide % 32 == byte % 32;
    assert Pull(held, 6, wide / 32) == ([held * 4 + pending], byte / 32, 3);
    assert Pull(byte / 32, 3, wide % 32) == ([byte], 0, 0);
    BytesTwo(held, 6, wide / 32, wide % 32, more);
  }

  lemma Pull3(pending: nat, held: nat, byte: Byte)
    requires pending < 8
    ensures var wide := pending * 256 + byte;
            && Pull(held, 5, wide / 64) == ([held * 8 + pending], byte / 64, 2)
            && Pull(byte / 64, 2, wide / 2 % 32) == ([], byte / 2, 7)
  {
    var wide := pending * 256 + byte;
    DivUnique(wide, 64, pending * 4 + byte / 64, byte % 64);
    DivUnique(wide, 2, pending * 128 + byte / 2, byte % 2);
    DivUnique(pending * 128 + byte / 2, 32, pending * 4 + byte / 64, byte / 2 % 32);
    DivUnique(held * 32 + pending * 4 + byte / 64, 4, held * 8 + pending, byte / 64);
  }

  lemma PullPush3(pending: nat, held: nat, byte: Byte, more: seq<nat>)
    requires pending < 8
    ensures var wide := pending * 256 + byte;
            Bytes(held, 5, [wide / 64, wide / 2 % 32] + more) == [held * 8 + pending] + Bytes(byte / 2, 7, more)
  {
    var wide := pending * 256 + byte;
    Pull3(pending, held, byte);
    BytesTwo(held, 5, wide / 64, wide / 2 % 32, more);
  }

  lemma MiddleBits4(pending: nat, byte: Byte)
    ensures (pending * 256 + byte) / 4 % 32 == byte / 4 % 32
    ensures byte / 128 * 32 + byte / 4 % 32 == byte / 4
  {
    DivUnique(pending * 256 + byte, 4, pending * 64 + byte / 4, byte % 4);
    DivUnique(byte / 4, 32, byte / 128, byte / 4 % 32);
    DivUnique(pending * 64 + byte / 4, 32, pending * 2 + byte / 128, byte / 4 % 32);
  }

  lemma Pull4(pending: nat, held: nat, byte: Byte)
    requires pending < 16
    ensures var wide := pending * 256 + byte;
            && Pull(held, 4, wide / 128) == ([held * 16 + pending], byte / 128, 1)
            && Pull(byte / 128, 1, wide / 4 % 32) == ([], byte / 4, 6)
  {
    DivUnique(pending * 256 + byte, 128, pending * 2 + byte / 128, byte % 128);
    DivUnique(held * 32 + pending * 2 + byte / 128, 2, held * 16 + pending, byte / 128);
    MiddleBits4(pending, byte);
  }

  lemma PullPush4(pending: nat, held: nat, byte: Byte, more: seq<nat>)
    requires pending < 16
    ensures var wide := pending * 256 + byte;
            Bytes(held, 4, [wide / 128, wide / 4 % 32] + more) == [held * 16 + pending] + Bytes(byte / 4, 6, more)
  {
    var wide := pending * 256 + byte;
    Pull4(pending, held, byte);
    BytesTwo(held, 4, wide / 128, wide / 4 % 32, more);
  }

  // ------------------------------------------------------------- alphabet

  lemma AlphabetOrder()
    ensures |ALPHABET| == 32
    ensures forall d :: 0 <= d < 26 ==> ALPHABET[d] as int == 'A' as int + d
    ensures forall d :: 26 <= d < 32 ==> ALPHABET[d] as int == '2' as int + d - 26
  {
  }

  /** Position in the alphabet. */
  function Position(c: char): (r: Option<nat>)
    ensures r.Some? ==> r.value < |ALPHABET| && ALPHABET[r.value] == c
    ensures r.None? ==> c !in ALPHABET
  {
    AlphabetOrder();
    if 'A' <= c <= 'Z' then Some(c as int - 'A' as int)
    else if '2' <= c <= '7' then Some(c as int - '2' as int + 26)
    else
      assert forall d :: 0 <= d < 26 ==> 'A' <= ALPHABET[d] <= 'Z';
      assert forall d :: 26 <= d < 32 ==> '2' <= ALPHABET[d] <= '7';
      None
  }

  lemma PositionOf(d: nat)
    requires d < 32
    ensures Position(ALPHABET[d]) == Some(d)
  {
    AlphabetOrder();
  }

  function Text(digits: seq<nat>): (s: string)
    requires forall d <- digits :: d < 32
    ensures |s| == |digits|
    ensures forall i :: 0 <= i < |s| ==> digits[i] < 32 && s[i] == ALPHABET[digits[i]]
  {
    assert forall i :: 0 <= i < |digits| ==> digits[i] in digits;
    seq(|digits|, i requires 0 <= i < |digits| => ALPHABET[digits[i]])
  }

  lemma {:induction false} DigitsRange(pending: nat, bits: nat, data: seq<Byte>)
    requires bits < 5 && pending < Pow2(bits)
    ensures forall d <- Digits(pending, bits, data) :: d < 32
    decreases data
  {
    if data != [] {
      PushRange(pending, bits, data[0]);
      var (_, left, n) := Push(pending, bits, data[0]);
      DigitsRange(left, n, data[1..]);
    } else if bits != 0 {
      FinalRange(pending, bits);
    }
  }

  lemma FinalRange(pending: nat, bits: nat)
    requires 0 < bits < 5 && pending < Pow2(bits)
    ensures pending * Pow2(5 - bits) < 32
  {
  }

  /** The characters still to come for `data` after `bits` pending bits. */
  function Rest(pending: nat, bits: nat, data: seq<Byte>): string
    requires bits < 5 && pending < Pow2(bits)
  {
    DigitsRange(pending, bits, data);
    Text(Digits(pending, bits, data))
  }

  /** What `base32_encode` returns. */
  function Encoded(data: seq<Byte>): string {
    Rest(0, 0, data)
  }

  /** `=` and spaces anywhere are skipped. */
  predicate Ignored(c: char) {
    c == '=' || c == ' '
  }

  function Values(s: string): Option<seq<nat>> {
    if s == "" then Some([])
    else if Ignored(s[0]) then Values(s[1..])
    else
      var v :- Position(Upper(s[0]));
      var rest :- Values(s[1..]);
      Some([v] + rest)
  }

  /** What `base32_decode` returns. */
  function Decoded(s: string): Option<seq<nat>> {
    var values :- Values(s);
    Some(Bytes(0, 0, values))
  }

  // --------------------------------------------------- the code's two loops

  lemma WindowTop(buffer: nat, k: nat)
    requires k <= 7
    ensures Window(buffer, k, 5) == buffer % Pow2(k + 5) / Pow2(k)
    ensures buffer % Pow2(k + 5) % Pow2(k) == buffer % Pow2(k)
  {
    WindowAt(buffer, k);
  }

  lemma DivUnique(x: nat, a: nat, q: nat, m: nat)
    requires x == a * q + m && m < a
    ensures x / a == q && x % a == m
  {
    var d := q - x / a;
    assert a * d == x % a - m;
    assert d >= 1 ==> a * d >= a;
    assert d <= -1 ==> a * d + a <= 0;
  }

  lemma QuotientBound(r: nat, a: nat, b: nat)
    requires a > 0 && r < a * b
    ensures r / a < b
  {
    var d := r / a;
    assert a * d <= r;
    assert d >= b ==> a * d >= a * b;
  }

  lemma ModDiv(x: nat, a: nat, b: nat)
    requires a > 0 && b > 0 && a * b > 0
    ensures x % (a * b) / a == x / a % b
    ensures x % (a * b) % a == x % a
  {
    var q, r := x / (a * b), x % (a * b);
    var d, m := r / a, r % a;
    QuotientBound(r, a, b);
    ModDivParts(x, a, b, q, d, m);
  }

  lemma ModDivParts(x: nat, a: nat, b: nat, q: nat, d: nat, m: nat)
    requires m < a && d < b && x == (a * b) * q + (a * d + m)
    ensures x / a % b == d && x % a == m
  {
    var k := b * q + d;
    assert (a * b) * q == a * (b * q);
    assert a * k == a * (b * q) + a * d;
    DivUnique(x, a, k, m);
    DivUnique(k, b, q, d);
  }

  lemma WindowAt(buffer: nat, k: nat)
    requires k <= 7
    ensures buffer / Pow2(k) % 32 == buffer % Pow2(k + 5) / Pow2(k)
    ensures buffer % Pow2(k + 5) % Pow2(k) == buffer % Pow2(k)
  {
    assert Pow2(k) * 32 == Pow2(k + 5);
    ModDiv(buffer, Pow2(k), 32);
  }

  /** The low bits of the accumulator after `(buffer << 8) | byte`. */
  lemma PushWord(buffer: nat, bits: nat, byte: Byte)
    requires bits < 5
    ensures Shl(buffer, 8) + byte < WORD
    ensures (Shl(buffer, 8) + byte) % Pow2(bits + 8) == buffer % Pow2(bits) * 256 + byte
  {
    ShlKeeps(buffer, 8, bits);
    AppendLow(buffer, bits, byte);
  }

  /** Shifting left and dropping the high bits leaves the low ones shifted. */
  lemma ShlKeeps(buffer: nat, n: nat, bits: nat)
    requires n + bits <= 12
    ensures Shl(buffer, n) % Pow2(bits + n) == buffer % Pow2(bits) * Pow2(n)
    ensures Shl(buffer, n) + Pow2(n) <= WORD
  {
    PowerSum(bits, n);
    ShlMod(buffer, n, bits + n);
    MulMod(buffer, Pow2(bits), Pow2(n));
    WordMultiple(n);
    ShlMod(buffer, n, n);
    DivUnique(buffer * Pow2(n), Pow2(n), buffer, 0);
    Below(Shl(buffer, n), Pow2(n), WORD / Pow2(n));
  }

  lemma ShlMod(buffer: nat, n: nat, k: nat)
    requires n <= 12 && k <= 12
    ensures Shl(buffer, n) % Pow2(k) == buffer * Pow2(n) % Pow2(k)
  {
    WordMultiple(k);
    ModDiv(buffer * Pow2(n), Pow2(k), WORD / Pow2(k));
  }

  lemma Spread(a: nat, q: nat, r: nat, p: nat)
    ensures (a * q + r) * p == (a * p) * q + r * p
  {
    assert (a * q) * p == (a * p) * q;
  }

  lemma Widen(a: nat, b: nat, p: nat)
    requires a <= b
    ensures a * p <= b * p
  {
  }

  lemma MulMod(x: nat, a: nat, p: nat)
    requires a > 0 && p > 0 && a * p > 0
    ensures x * p % (a * p) == x % a * p
  {
    var q, r := x / a, x % a;
    Spread(a, q, r, p);
    Widen(r + 1, a, p);
    DivUnique(x * p, a * p, q, r * p);
  }

  lemma PowerSum(a: nat, b: nat)
    requires a + b <= 12
    ensures Pow2(a) * Pow2(b) == Pow2(a + b)
  {
  }

  lemma WordMultiple(n: nat)
    requires n <= 12
    ensures WORD / Pow2(n) > 0 && Pow2(n) * (WORD / Pow2(n)) == WORD
  {
  }

  lemma Below(y: nat, p: nat, w: nat)
    requires p > 0 && y % p == 0 && y < p * w
    ensures y + p <= p * w
  {
    var k := y / p;
    assert y == p * k;
    assert k >= w ==> p * k >= p * w;
    assert p * (k + 1) <= p * w;
  }

  lemma AppendLow(buffer: nat, bits: nat, byte: Byte)
    requires bits < 5
    requires Shl(buffer, 8) % Pow2(bits + 8) == buffer % Pow2(bits) * 256
    ensures (Shl(buffer, 8) + byte) % Pow2(bits + 8) == buffer % Pow2(bits) * 256 + byte
  {
    var y, m, r := Shl(buffer, 8), Pow2(bits + 8), buffer % Pow2(bits);
    PowerSum(bits, 8);
    assert r * 256 + byte < m;
    DivUnique(y + byte, m, y / m, r * 256 + byte);
  }

  lemma {:induction false} EmitRange(v: nat, n: nat)
    requires n <= 12 && v < Pow2(n)
    ensures forall d <- Emit(v, n).0 :: d < 32
    ensures Emit(v, n).2 < 5
  {
    if n >= 5 {
      PowerSum(n - 5, 5);
      QuotientBound(v, Pow2(n - 5), 32);
      EmitRange(v % Pow2(n - 5), n - 5);
    }
  }

  lemma TextAppend(a: seq<nat>, b: seq<nat>)
    requires (forall d <- a :: d < 32) && forall d <- b :: d < 32
    ensures (forall d <- a + b :: d < 32) && Text(a + b) == Text(a) + Text(b)
  {
  }

  /** One turn of the drain: the top group is what `Emit` puts first. */
  lemma DrainStep(buffer: nat, left: nat)
    requires 5 <= left <= 12
    ensures var emitted, rest := Emit(buffer % Pow2(left), left), Emit(buffer % Pow2(left - 5), left - 5);
            && Window(buffer, left - 5, 5) < 32 && (forall d <- rest.0 :: d < 32)
            && (forall d <- emitted.0 :: d < 32)
            && Text(emitted.0) == [ALPHABET[Window(buffer, left - 5, 5)]] + Text(rest.0)
            && emitted.1 == rest.1 && emitted.2 == rest.2
  {
    WindowTop(buffer, left - 5);
    var rest := Emit(buffer % Pow2(left - 5), left - 5);
    EmitRange(buffer % Pow2(left), left);
    EmitRange(buffer % Pow2(left - 5), left - 5);
    assert Emit(buffer % Pow2(left), left).0 == [Window(buffer, left - 5, 5)] + rest.0;
    TextAppend([Window(buffer, left - 5, 5)], rest.0);
  }

  /** The inner loop of `base32_encode`: as many five-bit groups as the accumulator holds. */
  method Drain(out: string, buffer: nat, bits: nat, ghost emitted: (seq<nat>, nat, nat))
    returns (drained: string, left: nat)
    requires bits <= 12 && emitted == Emit(buffer % Pow2(bits), bits)
    ensures left == emitted.2 < 5 && buffer % Pow2(left) == emitted.1
    ensures (forall d <- emitted.0 :: d < 32) && drained == out + Text(emitted.0)
  {
    drained, left := out, bits;
    EmitRange(buffer % Pow2(bits), bits);
    while left >= 5
      invariant left <= 12
      invariant (forall d <- Emit(buffer % Pow2(left), left).0 :: d < 32)
                && drained + Text(Emit(buffer % Pow2(left), left).0) == out + Text(emitted.0)
      invariant Emit(buffer % Pow2(left), left).1 == emitted.1 && Emit(buffer % Pow2(left), left).2 == emitted.2
    {
      DrainStep(buffer, left);
      ghost var group, rest := ALPHABET[Window(buffer, left - 5, 5)], Text(Emit(buffer % Pow2(left - 5), left - 5).0);
      Assoc(drained, [group], rest);
      left := left - 5;
      drained := drained + [ALPHABET[Window(buffer, left, 5)]];
    }
  }

  lemma Drained(before: string, held: nat, pending: nat, data: seq<Byte>, digits: seq<nat>, left: nat, n: nat)
    requires held < 5 && pending < Pow2(held) && data != []
    requires (digits, left, n) == Emit(pending * 256 + data[0], held + 8)
    ensures n < 5 && left < Pow2(n) && (forall d <- digits :: d < 32)
    ensures before + Text(digits) + Rest(left, n, data[1..]) == before + Rest(pending, held, data)
  {
    EncodeStep(before, pending, held, data);
  }

  /** The inner loop on a word whose low bits are the pending ones and the byte just shifted in. */
  method DrainByte(before: string, buffer: nat, held: nat, ghost pending: nat, ghost data: seq<Byte>)
    returns (out: string, bits: nat)
    requires held < 5 && pending < Pow2(held) && data != []
    requires buffer % Pow2(held + 8) == pending * 256 + data[0]
    ensures bits < 5
    ensures out + Rest(buffer % Pow2(bits), bits, data[1..]) == before + Rest(pending, held, data)
  {
    ghost var emitted := Emit(buffer % Pow2(held + 8), held + 8);
    Drained(before, held, pending, data, emitted.0, emitted.1, emitted.2);
    out, bits := Drain(before, buffer, held + 8, emitted);
  }

  /** `base32_encode`, with its wrapping accumulator. */
  method Base32Encode(data: seq<Byte>) returns (out: string)
    ensures out == Encoded(data)
  {
    out := "";
    var buffer: nat, bits: nat := 0, 0;
    assert data[0..] == data;
    for i := 0 to |data|
      invariant bits < 5
      invariant out + Rest(buffer % Pow2(bits), bits, data[i..]) == Encoded(data)
    {
      assert data[i..][1..] == data[i + 1..];
      ghost var pending := buffer % Pow2(bits);
      PushWord(buffer, bits, data[i]);
      buffer := Shl(buffer, 8) + data[i];
      out, bits := DrainByte(out, buffer, bits, pending, data[i..]);
    }
    RestAtEnd(buffer % Pow2(bits), bits, data[|data|..]);
    if bits > 0 {
      FinalWord(buffer, bits);
      out := out + [ALPHABET[Window(Shl(buffer, 5 - bits), 0, 5)]];
    }
  }

  lemma RestAtEnd(pending: nat, bits: nat, data: seq<Byte>)
    requires bits < 5 && pending < Pow2(bits) && data == []
    ensures bits == 0 ==> Rest(pending, bits, data) == ""
    ensures bits != 0 ==>
              && pending * Pow2(5 - bits) < 32
              && Rest(pending, bits, data) == [ALPHABET[pending * Pow2(5 - bits)]]
  {
    if bits != 0 {
      FinalRange(pending, bits);
    }
  }

  lemma EncodeStep(out: string, pending: nat, bits: nat, data: seq<Byte>)
    requires bits < 5 && pending < Pow2(bits) && data != []
    ensures var (digits, left, n) := Emit(pending * 256 + data[0], bits + 8);
            && n < 5 && left < Pow2(n) && (forall d <- digits :: d < 32)
            && out + Rest(pending, bits, data) == out + Text(digits) + Rest(left, n, data[1..])
  {
    PushEmits(pending, bits, data[0]);
    PushRange(pending, bits, data[0]);
    var (digits, left, n) := Push(pending, bits, data[0]);
    DigitsRange(left, n, data[1..]);
    TextAppend(digits, Digits(left, n, data[1..]));
  }

  lemma FinalWord(buffer: nat, bits: nat)
    requires 0 < bits < 5
    ensures Window(Shl(buffer, 5 - bits), 0, 5) == buffer % Pow2(bits) * Pow2(5 - bits)
  {
    ShlKeeps(buffer, 5 - bits, bits);
    assert Shl(buffer, 5 - bits) / Pow2(0) == Shl(buffer, 5 - bits);
  }

  /** The low bits of the accumulator after `(buffer << 5) | value`. */
  lemma PullWord(buffer: nat, bits: nat, value: nat)
    requires bits < 8 && value < 32
    ensures Shl(buffer, 5) + value < WORD
    ensures (Shl(buffer, 5) + value) % Pow2(bits + 5) == buffer % Pow2(bits) * 32 + value
  {
    ShlKeeps(buffer, 5, bits);
    PowerSum(bits, 5);
    var y, m, r := Shl(buffer, 5), Pow2(bits + 5), buffer % Pow2(bits);
    assert r * 32 + value < m;
    DivUnique(y + value, m, y / m, r * 32 + value);
  }

  /** One step of the decoder's accumulator is one step of the reference. */
  lemma PullStep(buffer: nat, bits: nat, value: nat)
    requires bits < 8 && value < 32
    ensures var next := Shl(buffer, 5) + value;
            Pull(buffer % Pow2(bits), bits, value)
            == if bits < 3 then ([], next % Pow2(bits + 5), bits + 5)
               else ([Window(next, bits - 3, 8)], next % Pow2(bits - 3), bits - 3)
  {
    var next := Shl(buffer, 5) + value;
    PullWord(buffer, bits, value);
    if bits >= 3 {
      PowerSum(bits - 3, 8);
      ModDiv(next, Pow2(bits - 3), 256);
      PullQuotient(buffer % Pow2(bits), bits, value);
    }
  }

  lemma PullQuotient(pending: nat, bits: nat, value: nat)
    requires 3 <= bits < 8
    ensures var wide := pending * 32 + value;
            Pull(pending, bits, value) == ([wide / Pow2(bits - 3)], wide % Pow2(bits - 3), bits - 3)
  {
    assert Pow2(0) == 1;
  }

  /** The answer still to come after `out`, from the rest of the input. */
  function Remaining(out: seq<nat>, pending: nat, bits: nat, rest: string): Option<seq<nat>>
    requires bits < 8
  {
    var values :- Values(rest);
    Some(out + Bytes(pending, bits, values))
  }

  lemma RemainingStart(encoded: string)
    ensures Remaining([], 0, 0, encoded) == Decoded(encoded)
  {
    if Values(encoded).Some? {
      assert [] + Bytes(0, 0, Values(encoded).value) == Bytes(0, 0, Values(encoded).value);
    }
  }

  lemma RemainingStep(out: seq<nat>, pending: nat, bits: nat, rest: string)
    requires bits < 8 && rest != ""
    ensures Ignored(rest[0]) ==> Remaining(out, pending, bits, rest) == Remaining(out, pending, bits, rest[1..])
    ensures !Ignored(rest[0]) ==>
              match Position(Upper(rest[0]))
              case None => Remaining(out, pending, bits, rest) == None
              case Some(v) =>
                var (bytes, left, n) := Pull(pending, bits, v);
                Remaining(out, pending, bits, rest) == Remaining(out + bytes, left, n, rest[1..])
  {
    if !Ignored(rest[0]) && Position(Upper(rest[0])).Some? && Values(rest[1..]).Some? {
      var v, values := Position(Upper(rest[0])).value, Values(rest[1..]).value;
      var (bytes, left, n) := Pull(pending, bits, v);
      assert ([v] + values)[1..] == values;
      assert out + (bytes + Bytes(left, n, values)) == out + bytes + Bytes(left, n, values);
    }
  }

  /** One digit into the accumulator, and the byte it completes, if any, out of it. */
  method TakeDigit(before: seq<nat>, word: nat, held: nat, value: nat)
    returns (out: seq<nat>, buffer: nat, bits: nat)
    requires held < 8 && value < 32
    ensures bits < 8 && (bits == if held < 3 then held + 5 else held - 3)
    ensures var (bytes, left, n) := Pull(word % Pow2(held), held, value);
            out == before + bytes && buffer % Pow2(bits) == left && bits == n
  {
    PullStep(word, held, value);
    out, buffer, bits := before, Shl(word, 5) + value, held + 5;
    if bits >= 8 {
      bits := bits - 8;
      out := out + [Window(buffer, bits, 8)];
    } else {
      assert out + [] == out;
    }
  }

  /** `base32_decode`. */
  method Base32Decode(encoded: string) returns (result: Option<seq<nat>>)
    ensures result == Decoded(encoded)
  {
    var out: seq<nat> := [];
    var buffer: nat, bits: nat := 0, 0;
    assert encoded[0..] == encoded;
    RemainingStart(encoded);
    for i := 0 to |encoded|
      invariant bits < 8
      invariant Remaining(out, buffer % Pow2(bits), bits, encoded[i..]) == Decoded(encoded)
    {
      RemainingStep(out, buffer % Pow2(bits), bits, encoded[i..]);
      assert encoded[i..][1..] == encoded[i + 1..];
      if !Ignored(encoded[i]) {
        var value := Position(Upper(encoded[i]));
        if value.None? {
          return None;
        }
        out, buffer, bits := TakeDigit(out, buffer, bits, value.value);
      }
    }
    RemainingEnd(out, buffer % Pow2(bits), bits, encoded);
    return Some(out);
  }

  lemma RemainingEnd(out: seq<nat>, pending: nat, bits: nat, encoded: string)
    requires bits < 8
    ensures Remaining(out, pending, bits, encoded[|encoded|..]) == Some(out)
  {
    assert encoded[|encoded|..] == "" && Values("") == Some([]);
    assert out + [] == out;
  }

  // ----------------------------------------------------------- round trip

  /** A string with padding and spaces removed and letters upper-cased. */
  function Normalized(s: string): string {
    if s == "" then ""
    else if Ignored(s[0]) then Normalized(s[1..])
    else [Upper(s[0])] + Normalized(s[1..])
  }

  lemma NormalizedHead(s: string, digits: seq<nat>)
    requires (forall d <- digits :: d < 32) && s != "" && !Ignored(s[0]) && Normalized(s) == Text(digits)
    ensures digits != [] && digits[0] < 32 && ALPHABET[digits[0]] == Upper(s[0])
    ensures (forall d <- digits[1..] :: d < 32) && Normalized(s[1..]) == Text(digits[1..])
  {
    assert Text(digits)[0] == Upper(s[0]);
    assert digits[0] in digits;
    assert Text(digits)[1..] == Text(digits[1..]);
    assert Normalized(s)[1..] == Normalized(s[1..]);
  }

  lemma {:induction false} ValuesOfText(s: string, digits: seq<nat>)
    requires (forall d <- digits :: d < 32) && Normalized(s) == Text(digits)
    ensures Values(s) == Some(digits)
  {
    if s == "" {
      assert |digits| == 0;
    } else if Ignored(s[0]) {
      ValuesOfText(s[1..], digits);
    } else {
      NormalizedHead(s, digits);
      PositionOf(digits[0]);
      ValuesOfText(s[1..], digits[1..]);
      HeadTail(digits);
    }
  }

  /**
    Any string that becomes the encoding of `data` once `=` and spaces are
    dropped and letters are upper-cased decodes to `data`, of any length.
   */
  lemma RoundTrip(data: seq<Byte>, s: string)
    requires Normalized(s) == Encoded(data)
    ensures Decoded(s) == Some(data)
  {
    DigitsRange(0, 0, data);
    ValuesOfText(s, Digits(0, 0, data));
    DecodeDigits(0, 0, 0, data);
    assert Shared(0, 0, 0) + data == data;
  }

  /** The encoding itself is such a string. */
  lemma EncodedIsNormalized(data: seq<Byte>)
    ensures Normalized(Encoded(data)) == Encoded(data)
  {
    DigitsRange(0, 0, data);
    TextIsNormalized(Digits(0, 0, data));
  }

  lemma DigitChar(d: nat)
    requires d < 32
    ensures !Ignored(ALPHABET[d]) && Upper(ALPHABET[d]) == ALPHABET[d]
  {
    AlphabetOrder();
  }

  lemma TextCons(digits: seq<nat>)
    requires digits != [] && forall d <- digits :: d < 32
    ensures digits[0] < 32 && (forall d <- digits[1..] :: d < 32)
    ensures Text(digits) == [ALPHABET[digits[0]]] + Text(digits[1..])
  {
    assert digits[0] in digits;
    assert forall d :: d in digits[1..] ==> d in digits;
  }

  lemma NormalizedCons(c: char, rest: string)
    requires !Ignored(c)
    ensures Normalized([c] + rest) == [Upper(c)] + Normalized(rest)
  {
    assert ([c] + rest)[1..] == rest;
  }

  lemma {:induction false} TextIsNormalized(digits: seq<nat>)
    requires forall d <- digits :: d < 32
    ensures Normalized(Text(digits)) == Text(digits)
  {
    if digits != [] {
      TextCons(digits);
      DigitChar(digits[0]);
      NormalizedCons(ALPHABET[digits[0]], Text(digits[1..]));
      TextIsNormalized(digits[1..]);
    }
  }

  /** Decoding fails exactly on a character outside the alphabet. */
  lemma {:induction false} DecodeFails(s: string)
    ensures Decoded(s) == None <==> exists c <- s :: !Ignored(c) && Upper(c) !in ALPHABET
  {
    ValuesFail(s);
  }

  lemma {:induction false} ValuesFail(s: string)
    ensures Values(s) == None <==> exists c <- s :: !Ignored(c) && Upper(c) !in ALPHABET
  {
    if s != "" {
      ValuesFail(s[1..]);
      assert s == [s[0]] + s[1..];
      var p := Position(Upper(s[0]));
      assert p.Some? ==> ALPHABET[p.value] in ALPHABET;
    }
  }
}
