/** Sortable identifiers: a millisecond clock and 80 random bits in Crockford base 32 (shared/id/id.go). */
module Ids {
  import opened Prelude

  const ALPHABET: string := "0123456789ABCDEFGHJKMNPQRSTVWXYZ"
  const LENGTH := 26
  const TIME_CHARS := 10
  const RANDOM_BYTES := 10
  const NONCE_BYTES := 16

  /** The alphabet by runs of consecutive letters; AlphabetSpelling ties it to the literal. */
  function Symbol(d: Digit): char {
    var code :=
      if d < 10 then '0' as int + d
      else if d < 18 then 'A' as int + d - 10
      else if d < 20 then 'J' as int + d - 18
      else if d < 22 then 'M' as int + d - 20
      else if d < 27 then 'P' as int + d - 22
      else 'V' as int + d - 27;
    code as char
  }

  lemma AlphabetSpelling()
    ensures |ALPHABET| == 32 && forall d: Digit :: ALPHABET[d] == Symbol(d)
  {
  }

  type Byte = b: int | 0 <= b < 256
  type Digit = d: int | 0 <= d < 32

  // --- unsigned 32-bit words, as the encoder uses them ---

  const WORD: int := 0x1_0000_0000

  function Pow2(n: nat): (p: nat)
    ensures p >= 1
  {
    if n == 0 then 1 else 2 * Pow2(n - 1)
  }

  function Shl(x: nat, k: nat): nat {
    x * Pow2(k) % WORD
  }

  function Shr(x: nat, k: nat): nat {
    if k == 0 then x else Shr(x / 2, k - 1)
  }

  function Low5(x: nat): Digit {
    x % 32
  }

  // --- numbers written in base 256 and base 32, most significant place first ---

  function BigEndian(bytes: seq<Byte>): nat {
    if bytes == [] then 0 else BigEndian(bytes[..|bytes| - 1]) * 256 + bytes[|bytes| - 1]
  }

  function Number(digits: seq<Digit>): nat {
    if digits == [] then 0 else Number(digits[..|digits| - 1]) * 32 + digits[|digits| - 1]
  }

  /** The low `n` base-32 digits of `v`. */
  function Digits(v: nat, n: nat): (ds: seq<Digit>)
    ensures |ds| == n
    decreases n, v
  {
    if n == 0 then [] else Digits(v / 32, n - 1) + [v % 32]
  }

  function Pow32(n: nat): (p: nat)
    ensures p >= 1
  {
    if n == 0 then 1 else 32 * Pow32(n - 1)
  }

  function Text(digits: seq<Digit>): (t: string)
    ensures |t| == |digits|
  {
    seq(|digits|, i requires 0 <= i < |digits| => Symbol(digits[i]))
  }

  // --- what the two generators are meant to write ---

  /** An int64 converted to uint64, as `uint64(t.UnixMilli())` does. */
  function AsUint64(millis: int): nat {
    millis % 0x1_0000_0000_0000_0000
  }

  function Encoded(millis: int, rnd: seq<Byte>): string {
    Text(Digits(AsUint64(millis), TIME_CHARS) + Digits(BigEndian(rnd), 16))
  }

  /** 128 bits fill 25 digits and leave 3 bits, which the last digit carries shifted left by 2. */
  function NonceText(rnd: seq<Byte>): string {
    Text(Digits(BigEndian(rnd) * 4, 26))
  }

  // --- arithmetic of the accumulator ---

  lemma LowWord(x: nat, q: nat, r: nat)
    requires x == q * WORD + r && r < WORD
    ensures x % WORD == r
  {
  }

  lemma AppendToWord(q: nat, r: nat, b: Byte)
    requires r < WORD
    ensures r * 256 % WORD + b == ((q * WORD + r) * 256 + b) % WORD
  {
    var q', r' := r / 0x100_0000, r % 0x100_0000;
    LowWord(r * 256, q', r' * 256);
    LowWord((q * WORD + r) * 256 + b, q * 256 + q', r' * 256 + b);
  }

  lemma ShlByte(r: nat)
    ensures Shl(r, 8) == r * 256 % WORD
  {
    PowersOfInterest();
  }

  /** The word keeps the low 32 bits of everything shifted in. */
  lemma AppendByte(v: nat, b: Byte)
    ensures Shl(v % WORD, 8) + b == (v * 256 + b) % WORD
  {
    var q, r := v / WORD, v % WORD;
    assert v == q * WORD + r;
    ShlByte(r);
    AppendToWord(q, r, b);
  }

  lemma {:induction false} ShrOfSum(q: nat, r: nat, k: nat)
    ensures Shr(q * Pow2(k) + r, k) == q + Shr(r, k)
  {
    if k > 0 {
      var x := q * Pow2(k - 1);
      assert q * Pow2(k) + r == 2 * x + r;
      assert (2 * x + r) / 2 == x + r / 2;
      ShrOfSum(q, r / 2, k - 1);
    }
  }

  lemma {:induction false} ShrTwice(v: nat, j: nat, k: nat)
    ensures Shr(Shr(v, j), k) == Shr(v, j + k)
  {
    if j > 0 {
      ShrTwice(v / 2, j - 1, k);
    }
  }

  lemma {:induction false} ShrOfSmall(r: nat, k: nat)
    requires r < Pow2(k)
    ensures Shr(r, k) == 0
  {
    if k > 0 {
      ShrOfSmall(r / 2, k - 1);
    }
  }

  lemma PowersOfInterest()
    ensures Pow2(5) == 32 && Pow2(8) == 256 && Pow2(9) == 512
  {
    assert Pow2(3) == 8;
    assert Pow2(6) == 64;
  }

  lemma ShrFive(v: nat)
    ensures Shr(v, 5) == v / 32
  {
    PowersOfInterest();
    ShrOfSum(v / 32, v % 32, 5);
    ShrOfSmall(v % 32, 5);
  }

  lemma {:induction false} PowersMultiply(j: nat, k: nat)
    ensures Pow2(j) * Pow2(k) == Pow2(j + k)
  {
    if j > 0 {
      PowersMultiply(j - 1, k);
      assert Pow2(j) * Pow2(k) == 2 * (Pow2(j - 1) * Pow2(k));
    }
  }

  lemma WordFactor(k: nat)
    requires k <= 27
    ensures WORD == 32 * Pow2(27 - k) * Pow2(k)
  {
    PowersOfInterest();
    PowersMultiply(9, 9);
    PowersMultiply(18, 9);
    PowersMultiply(27 - k, k);
    Associate(32, Pow2(27 - k), Pow2(k));
  }

  lemma Associate(a: int, b: int, c: int)
    ensures a * b * c == a * (b * c)
  {
  }

  lemma Regroup(q: int, t: int, p: int)
    ensures q * (32 * t * p) == 32 * (q * t) * p
  {
    Associate(q, 32 * t, p);
    Associate(32, q, t);
    assert q * (32 * t) == 32 * (q * t);
  }

  lemma MultipleOf32(m: nat, x: nat)
    ensures Low5(32 * m + x) == Low5(x)
  {
  }

  lemma ShrOfWords(q: nat, r: nat, k: nat)
    requires k <= 27
    ensures Shr(q * WORD + r, k) == 32 * (q * Pow2(27 - k)) + Shr(r, k)
  {
    WordFactor(k);
    Regroup(q, Pow2(27 - k), Pow2(k));
    ShrOfSum(32 * (q * Pow2(27 - k)), r, k);
  }

  lemma WindowOfSum(q: nat, r: nat, k: nat)
    requires k <= 27
    ensures Low5(Shr(q * WORD + r, k)) == Low5(Shr(r, k))
  {
    ShrOfWords(q, r, k);
    MultipleOf32(q * Pow2(27 - k), Shr(r, k));
  }

  /** Bits that wrapped out of the word are never read again. */
  lemma WindowOfWord(v: nat, k: nat)
    requires k <= 27
    ensures Low5(Shr(v % WORD, k)) == Low5(Shr(v, k))
  {
    var q, r := v / WORD, v % WORD;
    assert v == q * WORD + r;
    WindowOfSum(q, r, k);
  }

  lemma ShiftInByte(v: nat, b: Byte, bits: nat)
    ensures Shr(v * 256 + b, bits + 8) == Shr(v, bits)
  {
    ShrTwice(v * 256 + b, 8, bits);
    PowersOfInterest();
    ShrOfSum(v, b, 8);
    ShrOfSmall(b, 8);
  }

  // --- the generators ---

  /** What has been written once bytes summing to `v` are in, with `bits` bits of them still pending. */
  ghost predicate Emitted(written: string, v: nat, bits: nat) {
    written == Text(Digits(Shr(v, bits), |written|))
  }

  /** One pass of the inner loop: the next digit is read out of the word at `bits - 5`. */
  lemma EmitDigit(written: string, v: nat, acc: nat, bits: nat)
    requires 5 <= bits <= 12 && acc == v % WORD
    requires Emitted(written, v, bits)
    ensures Emitted(written + [Symbol(Low5(Shr(acc, bits - 5)))], v, bits - 5)
  {
    ShrTwice(v, bits - 5, 5);
    ShrFive(Shr(v, bits - 5));
    WindowOfWord(v, bits - 5);
  }

  /** The word after shifting in a byte, and the bits of it already written out. */
  lemma NextByte(bytes: seq<Byte>, j: nat, acc: nat, bits: nat)
    requires j < |bytes| && acc == BigEndian(bytes[..j]) % WORD
    ensures Shl(acc, 8) + bytes[j] == BigEndian(bytes[..j + 1]) % WORD
    ensures Shr(BigEndian(bytes[..j + 1]), bits + 8) == Shr(BigEndian(bytes[..j]), bits)
  {
    assert bytes[..j + 1][..j] == bytes[..j];
    AppendByte(BigEndian(bytes[..j]), bytes[j]);
    ShiftInByte(BigEndian(bytes[..j]), bytes[j], bits);
  }

  /** The ten clock digits, least significant first, into the front of `buf`. */
  method WriteTime(buf: array<char>, millis: int)
    requires buf.Length == LENGTH
    requires -0x8000_0000_0000_0000 <= millis < 0x8000_0000_0000_0000
    modifies buf
    ensures buf[..TIME_CHARS] == Text(Digits(AsUint64(millis), TIME_CHARS))
  {
    var ms: nat := AsUint64(millis);
    ghost var all := Digits(ms, TIME_CHARS);
    ghost var time: seq<Digit> := [];
    for i := TIME_CHARS downto 0
      invariant |time| == TIME_CHARS - i
      invariant Digits(ms, i) + time == all
      invariant buf[i..TIME_CHARS] == Text(time)
    {
      ghost var before := time;
      time := [Low5(ms)] + time;
      assert Digits(ms, i + 1) + before == Digits(ms / 32, i) + time;
      buf[i] := Symbol(Low5(ms));
      ShrFive(ms);
      ms := Shr(ms, 5);
    }
  }

  /** One byte's digits, appended to `buf` at `from`. */
  method EmitDigits(buf: array<char>, acc: nat, have: nat, from: nat, ghost v: nat) returns (bits: nat, out: nat)
    requires have <= 12 && acc == v % WORD
    requires TIME_CHARS <= from && 5 * from + have <= 5 * buf.Length
    requires Emitted(buf[TIME_CHARS..from], v, have)
    modifies buf
    ensures bits < 5 && from <= out <= buf.Length && 5 * out + bits == 5 * from + have
    ensures buf[..from] == old(buf[..from])
    ensures Emitted(buf[TIME_CHARS..out], v, bits)
  {
    bits, out := have, from;
    while bits >= 5
      invariant bits <= have && from <= out && 5 * out + bits == 5 * from + have
      invariant buf[..from] == old(buf[..from])
      invariant Emitted(buf[TIME_CHARS..out], v, bits)
    {
      ghost var before := buf[TIME_CHARS..out];
      EmitDigit(before, v, acc, bits);
      bits := bits - 5;
      buf[out] := Symbol(Low5(Shr(acc, bits)));
      out := out + 1;
      assert buf[TIME_CHARS..out] == before + [buf[out - 1]];
    }
  }

  /** The sixteen random digits, through the 32-bit accumulator, into the rest of `buf`. */
  method WriteRandom(buf: array<char>, rnd: seq<Byte>)
    requires buf.Length == LENGTH && |rnd| == RANDOM_BYTES
    modifies buf
    ensures buf[..TIME_CHARS] == old(buf[..TIME_CHARS])
    ensures buf[TIME_CHARS..] == Text(Digits(BigEndian(rnd), 16))
  {
    var acc: nat, bits: nat, out: nat := 0, 0, TIME_CHARS;
    for j := 0 to |rnd|
      invariant acc == BigEndian(rnd[..j]) % WORD
      invariant bits < 5 && TIME_CHARS <= out <= LENGTH && 8 * j == 5 * (out - TIME_CHARS) + bits
      invariant Emitted(buf[TIME_CHARS..out], BigEndian(rnd[..j]), bits)
      invariant buf[..TIME_CHARS] == old(buf[..TIME_CHARS])
    {
      NextByte(rnd, j, acc, bits);
      acc := Shl(acc, 8) + rnd[j];
      bits, out := EmitDigits(buf, acc, bits + 8, out, BigEndian(rnd[..j + 1]));
    }
    assert rnd[..|rnd|] == rnd;
  }

  method NewAt(millis: int, rnd: seq<Byte>) returns (text: string)
    requires -0x8000_0000_0000_0000 <= millis < 0x8000_0000_0000_0000
    requires |rnd| == RANDOM_BYTES
    ensures text == Encoded(millis, rnd)
  {
    var buf := new char[LENGTH];
    WriteTime(buf, millis);
    WriteRandom(buf, rnd);
    text := buf[..];
    assert text == buf[..TIME_CHARS] + buf[TIME_CHARS..];
  }

  method WithPrefix(prefix: string, millis: int, rnd: seq<Byte>) returns (text: string)
    requires -0x8000_0000_0000_0000 <= millis < 0x8000_0000_0000_0000
    requires |rnd| == RANDOM_BYTES
    ensures text == prefix + "_" + Encoded(millis, rnd)
  {
    var body := NewAt(millis, rnd);
    text := prefix + "_" + body;
  }

  lemma ShrThree(v: nat)
    ensures Shr(v, 3) == v * 4 / 32
  {
    ShrOfSum(v / 8, v % 8, 3);
    ShrOfSmall(v % 8, 3);
  }

  lemma MultipleGone(k: int, x: nat)
    ensures (32 * k + x) % 32 == x % 32
  {
  }

  lemma WordThenLow(x: nat)
    ensures x % WORD % 32 == x % 32
  {
    MultipleGone(x / WORD * 0x800_0000, x % WORD);
  }

  lemma LowOfPadded(q: nat, r: nat)
    requires r < WORD
    ensures Low5(Shl(r, 2)) == (q * WORD + r) * 4 % 32
  {
    WordThenLow(r * 4);
    MultipleGone(q * 0x2000_0000, r * 4);
    assert (q * WORD + r) * 4 == 32 * (q * 0x2000_0000) + r * 4;
  }

  /** The bits left over are moved to the top of a last digit. */
  lemma PadDigit(written: string, v: nat, acc: nat)
    requires acc == v % WORD && |written| == 25
    requires Emitted(written, v, 3)
    ensures written + [Symbol(Low5(Shl(acc, 2)))] == Text(Digits(v * 4, 26))
  {
    ShrThree(v);
    LowOfPadded(v / WORD, acc);
    assert Digits(v * 4, 26) == Digits(v * 4 / 32, 25) + [v * 4 % 32];
  }

  method Nonce(rnd: seq<Byte>) returns (text: string)
    requires |rnd| == NONCE_BYTES
    ensures text == NonceText(rnd)
  {
    var sb: string := "";
    var acc: nat, bits: nat := 0, 0;
    for j := 0 to |rnd|
      invariant acc == BigEndian(rnd[..j]) % WORD
      invariant bits < 5 && 8 * j == 5 * |sb| + bits
      invariant Emitted(sb, BigEndian(rnd[..j]), bits)
    {
      ghost var v := BigEndian(rnd[..j + 1]);
      NextByte(rnd, j, acc, bits);
      acc := Shl(acc, 8) + rnd[j];
      bits := bits + 8;
      while bits >= 5
        invariant bits <= 12 && 8 * (j + 1) == 5 * |sb| + bits
        invariant Emitted(sb, v, bits)
      {
        EmitDigit(sb, v, acc, bits);
        bits := bits - 5;
        sb := sb + [Symbol(Low5(Shr(acc, bits)))];
      }
    }
    assert rnd[..|rnd|] == rnd;
    assert |sb| == 25 && bits == 3;
    if bits > 0 {
      PadDigit(sb, BigEndian(rnd), acc);
      sb := sb + [Symbol(Low5(Shl(acc, 5 - bits)))];
    }
    text := sb;
  }

  // --- reading identifiers back ---

  datatype IdError = MalformedPrefix | WrongLength(got: nat) | IllegalCharacter(at: nat)

  /** The decode table: a digit's place in the alphabet, or -1. */
  function Decode(c: char): (d: int)
    ensures -1 <= d < 32
  {
    if '0' <= c <= '9' then c as int - '0' as int
    else if 'A' <= c <= 'H' then c as int - 'A' as int + 10
    else if 'J' <= c <= 'K' then c as int - 'J' as int + 18
    else if 'M' <= c <= 'N' then c as int - 'M' as int + 20
    else if 'P' <= c <= 'T' then c as int - 'P' as int + 22
    else if 'V' <= c <= 'Z' then c as int - 'V' as int + 27
    else -1
  }

  lemma DecodeInvertsSymbol(c: char, d: Digit)
    ensures Decode(c) == d <==> c == Symbol(d)
  {
  }

  lemma SymbolsIncrease(i: Digit, j: Digit)
    ensures i < j <==> Symbol(i) < Symbol(j)
  {
  }

  predicate Legal(body: string) {
    forall i :: 0 <= i < |body| ==> Decode(body[i]) >= 0
  }

  ghost predicate IsBody(body: string) {
    |body| == LENGTH && Legal(body)
  }

  /** A bare body, or a body behind a non-empty prefix and an underscore. */
  ghost predicate WellFormed(s: string) {
    IsBody(s) || exists prefix, body :: prefix != "" && IsBody(body) && s == prefix + "_" + body
  }

  function LastIndex(s: string, c: char): (i: int)
    ensures -1 <= i < |s|
    ensures i >= 0 ==> s[i] == c
    ensures forall k :: i < k < |s| ==> s[k] != c
  {
    if s == "" then -1
    else if s[|s| - 1] == c then |s| - 1
    else LastIndex(s[..|s| - 1], c)
  }

  function Body(s: string): string {
    s[LastIndex(s, '_') + 1..]
  }

  lemma LastIndexIs(s: string, c: char, i: int)
    requires -1 <= i < |s| && (i >= 0 ==> s[i] == c)
    requires forall k :: i < k < |s| ==> s[k] != c
    ensures LastIndex(s, c) == i
  {
  }

  lemma BodyOfShaped(prefix: string, body: string)
    requires IsBody(body)
    ensures LastIndex(body, '_') == -1 && Body(body) == body
    ensures LastIndex(prefix + "_" + body, '_') == |prefix| && Body(prefix + "_" + body) == body
  {
    LastIndexIs(body, '_', -1);
    LastIndexIs(prefix + "_" + body, '_', |prefix|);
  }

  lemma WellFormedHasBody(s: string)
    requires WellFormed(s)
    ensures LastIndex(s, '_') != 0 && IsBody(Body(s))
  {
    if IsBody(s) {
      BodyOfShaped("", s);
    } else {
      var prefix, body :| prefix != "" && IsBody(body) && s == prefix + "_" + body;
      BodyOfShaped(prefix, body);
    }
  }

  lemma PrefixedIsWellFormed(prefix: string, body: string)
    requires prefix != "" && IsBody(body)
    ensures WellFormed(prefix + "_" + body)
  {
  }

  /** The shape Validate looks for, found through the last underscore. */
  lemma WellFormedThroughBody(s: string)
    ensures WellFormed(s) <==> LastIndex(s, '_') != 0 && IsBody(Body(s))
  {
    var i := LastIndex(s, '_');
    if WellFormed(s) {
      WellFormedHasBody(s);
    } else if i < 0 {
      assert Body(s) == s;
    } else if i > 0 && IsBody(Body(s)) {
      assert s == s[..i] + "_" + Body(s);
      PrefixedIsWellFormed(s[..i], Body(s));
    }
  }

  method Validate(s: string) returns (r: Result<(), IdError>)
    ensures r.Ok? <==> WellFormed(s)
    ensures r == Err(MalformedPrefix) <==> LastIndex(s, '_') == 0 || (s != "" && LastIndex(s, '_') == |s| - 1)
    ensures forall n: nat :: r == Err(WrongLength(n)) ==> n == |Body(s)| != LENGTH
    ensures forall i: nat :: r == Err(IllegalCharacter(i)) ==>
      |Body(s)| == LENGTH && i < LENGTH && Decode(Body(s)[i]) < 0 && Legal(Body(s)[..i])
  {
    WellFormedThroughBody(s);
    var body := s;
    var i := LastIndex(s, '_');
    if i >= 0 {
      if i == 0 || i == |s| - 1 {
        return Err(MalformedPrefix);
      }
      body := s[i + 1..];
    }
    if |body| != LENGTH {
      return Err(WrongLength(|body|));
    }
    for k := 0 to |body|
      invariant Legal(body[..k])
    {
      if Decode(body[k]) < 0 {
        return Err(IllegalCharacter(k));
      }
    }
    assert body[..|body|] == body;
    return Ok(());
  }

  function DigitsOf(t: string): (ds: seq<Digit>)
    requires Legal(t)
    ensures |ds| == |t|
  {
    seq(|t|, i requires 0 <= i < |t| => Decode(t[i]))
  }

  /** The clock reading in an identifier. */
  function ClockOf(s: string): nat
    requires IsBody(Body(s))
  {
    Number(DigitsOf(Body(s)[..TIME_CHARS]))
  }

  lemma NumberStep(t: string, k: nat)
    requires Legal(t) && k < |t|
    ensures Number(DigitsOf(t[..k + 1])) == Number(DigitsOf(t[..k])) * 32 + Decode(t[k])
  {
    assert DigitsOf(t[..k + 1])[..k] == DigitsOf(t[..k]);
  }

  method ReadClock(body: string) returns (ms: nat)
    requires IsBody(body)
    ensures ms == Number(DigitsOf(body[..TIME_CHARS]))
  {
    ms := 0;
    for k := 0 to TIME_CHARS
      invariant ms == Number(DigitsOf(body[..k]))
    {
      NumberStep(body, k);
      ms := ms * 32 + Decode(body[k]);
    }
  }

  method Time(s: string) returns (r: Result<nat, IdError>)
    ensures r.Ok? <==> WellFormed(s)
    ensures WellFormed(s) ==> IsBody(Body(s)) && r == Ok(ClockOf(s))
  {
    var valid := Validate(s);
    if valid.Err? {
      return Err(valid.error);
    }
    WellFormedThroughBody(s);
    var body := s;
    var i := LastIndex(s, '_');
    if i >= 0 {
      body := s[i + 1..];
    }
    assert body == Body(s);
    var ms := ReadClock(body);
    return Ok(ms);
  }

  // --- what the encoding promises ---

  lemma {:induction false} NumberOfDigits(v: nat, n: nat)
    ensures Number(Digits(v, n)) == v % Pow32(n)
  {
    if n > 0 {
      NumberOfDigits(v / 32, n - 1);
      assert Digits(v, n)[..n - 1] == Digits(v / 32, n - 1);
      SplitRemainder(v, Pow32(n - 1));
    }
  }

  lemma SplitRemainder(v: nat, p: nat)
    requires p > 0
    ensures v % (32 * p) == v / 32 % p * 32 + v % 32
  {
    var w := v / 32;
    var q, r := w / p, w % p;
    assert w == q * p + r;
    assert v == q * (32 * p) + (r * 32 + v % 32) by {
      assert q * (32 * p) == 32 * (q * p);
    }
    RemainderIs(v, 32 * p, q, r * 32 + v % 32);
  }

  lemma RemainderIs(v: nat, m: nat, q: nat, r: nat)
    requires r < m && v == q * m + r
    ensures v % m == r
  {
    var k := v / m - q;
    assert k * m == r - v % m by {
      assert v == v / m * m + v % m;
      assert k * m == v / m * m - q * m;
    }
    BoundedMultiple(k, m);
  }

  lemma BoundedMultiple(k: int, m: int)
    requires -m < k * m < m
    ensures k == 0
  {
  }

  lemma {:induction false} DigitsOfNumber(ds: seq<Digit>)
    ensures Digits(Number(ds), |ds|) == ds
  {
    if ds != [] {
      DigitsOfNumber(ds[..|ds| - 1]);
    }
  }

  lemma DigitsOfText(ds: seq<Digit>)
    ensures Legal(Text(ds)) && DigitsOf(Text(ds)) == ds
  {
    forall i | 0 <= i < |ds| ensures Decode(Text(ds)[i]) == ds[i] {
      DecodeInvertsSymbol(Text(ds)[i], ds[i]);
    }
  }

  lemma {:induction false} BigEndianInjective(a: seq<Byte>, b: seq<Byte>)
    requires |a| == |b| && BigEndian(a) == BigEndian(b)
    ensures a == b
  {
    if a != [] {
      var n := |a| - 1;
      assert a[n] == BigEndian(a) % 256 && b[n] == BigEndian(b) % 256;
      BigEndianInjective(a[..n], b[..n]);
      assert a == a[..n] + [a[n]] && b == b[..n] + [b[n]];
    }
  }

  const CLOCK_RANGE: int := 0x4_0000_0000_0000

  lemma Radix()
    ensures Pow32(TIME_CHARS) == CLOCK_RANGE
  {
    assert Pow32(5) == 0x200_0000;
  }

  /** The ten clock digits hold the clock modulo 2^50, negative readings included. */
  lemma ClockDigits(millis: int)
    ensures Number(Digits(AsUint64(millis), TIME_CHARS)) == millis % CLOCK_RANGE
  {
    NumberOfDigits(AsUint64(millis), TIME_CHARS);
    Radix();
    LowFiftyBits(millis);
  }

  lemma LowFiftyBits(millis: int)
    ensures AsUint64(millis) % CLOCK_RANGE == millis % CLOCK_RANGE
  {
    var q, r := millis / 0x1_0000_0000_0000_0000, AsUint64(millis);
    var k, s := r / CLOCK_RANGE, r % CLOCK_RANGE;
    assert millis == (0x4000 * q + k) * CLOCK_RANGE + s;
  }

  lemma EncodedIsBody(millis: int, rnd: seq<Byte>)
    ensures IsBody(Encoded(millis, rnd))
  {
    DigitsOfText(Digits(AsUint64(millis), TIME_CHARS) + Digits(BigEndian(rnd), 16));
  }

  /** A generated identifier always validates; a prefixed one does exactly when the prefix is not empty. */
  lemma GeneratedIsWellFormed(prefix: string, millis: int, rnd: seq<Byte>)
    ensures WellFormed(Encoded(millis, rnd))
    ensures WellFormed(prefix + "_" + Encoded(millis, rnd)) <==> prefix != ""
  {
    var body := Encoded(millis, rnd);
    EncodedIsBody(millis, rnd);
    BodyOfShaped(prefix, body);
    WellFormedThroughBody(prefix + "_" + body);
  }

  /** Time gives back the millisecond exactly when it lies in the 50 bits the identifier has room for. */
  lemma ClockRoundTrips(prefix: string, millis: int, rnd: seq<Byte>)
    ensures var body := Encoded(millis, rnd);
      && Body(body) == body && Body(prefix + "_" + body) == body && IsBody(body)
      && ClockOf(body) == ClockOf(prefix + "_" + body) == millis % CLOCK_RANGE
      && (ClockOf(body) == millis <==> 0 <= millis < CLOCK_RANGE)
  {
    var body := Encoded(millis, rnd);
    EncodedIsBody(millis, rnd);
    BodyOfShaped(prefix, body);
    var time := Digits(AsUint64(millis), TIME_CHARS);
    assert body[..TIME_CHARS] == Text(time);
    DigitsOfText(time);
    ClockDigits(millis);
  }

  lemma {:induction false} BigEndianBound(bytes: seq<Byte>)
    ensures BigEndian(bytes) < Pow2(8 * |bytes|)
  {
    if bytes != [] {
      var n := |bytes| - 1;
      BigEndianBound(bytes[..n]);
      PowersOfInterest();
      PowersMultiply(8, 8 * n);
    }
  }

  lemma {:induction false} Pow32IsPow2(n: nat)
    ensures Pow32(n) == Pow2(5 * n)
  {
    if n > 0 {
      Pow32IsPow2(n - 1);
      PowersOfInterest();
      PowersMultiply(5, 5 * n - 5);
    }
  }

  lemma {:induction false} Pow2Monotonic(j: nat, k: nat)
    requires j <= k
    ensures Pow2(j) <= Pow2(k)
  {
    if j < k {
      Pow2Monotonic(j, k - 1);
    }
  }

  lemma NumberFits(v: nat, n: nat)
    requires v < Pow32(n)
    ensures Number(Digits(v, n)) == v
  {
    NumberOfDigits(v, n);
  }

  lemma PaddedBytesBound(bytes: seq<Byte>, pad: nat, n: nat)
    requires 8 * |bytes| + pad <= 5 * n
    ensures BigEndian(bytes) * Pow2(pad) < Pow32(n)
  {
    BigEndianBound(bytes);
    Pow32IsPow2(n);
    Pow2Monotonic(8 * |bytes| + pad, 5 * n);
    PowersMultiply(8 * |bytes|, pad);
    LessTimes(BigEndian(bytes), Pow2(8 * |bytes|), Pow2(pad));
  }

  lemma LessTimes(a: nat, b: nat, p: nat)
    requires a < b && p > 0
    ensures a * p < b * p
  {
  }

  /** `n` digits lose nothing of the bytes, padded with `pad` low bits, when there is room for the bits. */
  lemma DigitsHoldBytes(bytes: seq<Byte>, pad: nat, n: nat)
    requires 8 * |bytes| + pad <= 5 * n
    ensures Number(Digits(BigEndian(bytes) * Pow2(pad), n)) == BigEndian(bytes) * Pow2(pad)
  {
    PaddedBytesBound(bytes, pad, n);
    NumberFits(BigEndian(bytes) * Pow2(pad), n);
  }

  /** Sixteen digits lose nothing of ten bytes. */
  lemma RandomDigitsInjective(a: seq<Byte>, b: seq<Byte>)
    requires |a| == |b| == RANDOM_BYTES
    requires Digits(BigEndian(a), 16) == Digits(BigEndian(b), 16)
    ensures a == b
  {
    DigitsHoldBytes(a, 0, 16);
    DigitsHoldBytes(b, 0, 16);
    BigEndianInjective(a, b);
  }

  lemma TextInjective(ds: seq<Digit>, es: seq<Digit>)
    requires Text(ds) == Text(es)
    ensures ds == es
  {
    DigitsOfText(ds);
    DigitsOfText(es);
  }

  /** Two identifiers are the same text exactly when clock (modulo 2^50) and random bytes are the same. */
  lemma EncodedInjective(millis: int, rnd: seq<Byte>, millis': int, rnd': seq<Byte>)
    requires |rnd| == |rnd'| == RANDOM_BYTES
    ensures Encoded(millis, rnd) == Encoded(millis', rnd')
       <==> millis % CLOCK_RANGE == millis' % CLOCK_RANGE && rnd == rnd'
  {
    var t, t' := Digits(AsUint64(millis), TIME_CHARS), Digits(AsUint64(millis'), TIME_CHARS);
    var r, r' := Digits(BigEndian(rnd), 16), Digits(BigEndian(rnd'), 16);
    ClockDigits(millis);
    ClockDigits(millis');
    if Encoded(millis, rnd) == Encoded(millis', rnd') {
      TextInjective(t + r, t' + r');
      assert (t + r)[..TIME_CHARS] == t && (t' + r')[..TIME_CHARS] == t';
      assert (t + r)[TIME_CHARS..] == r && (t' + r')[TIME_CHARS..] == r';
      RandomDigitsInjective(rnd, rnd');
    } else if millis % CLOCK_RANGE == millis' % CLOCK_RANGE && rnd == rnd' {
      DigitsOfNumber(t);
      DigitsOfNumber(t');
    }
  }

  /** A nonce's padded last digit costs nothing either: 16 bytes map one-to-one to 26 characters. */
  lemma NonceInjective(rnd: seq<Byte>, rnd': seq<Byte>)
    requires |rnd| == |rnd'| == NONCE_BYTES
    ensures NonceText(rnd) == NonceText(rnd') <==> rnd == rnd'
    ensures IsBody(NonceText(rnd))
  {
    DigitsOfText(Digits(BigEndian(rnd) * 4, 26));
    if NonceText(rnd) == NonceText(rnd') {
      TextInjective(Digits(BigEndian(rnd) * 4, 26), Digits(BigEndian(rnd') * 4, 26));
      assert Pow2(2) == 4;
      DigitsHoldBytes(rnd, 2, 26);
      DigitsHoldBytes(rnd', 2, 26);
      BigEndianInjective(rnd, rnd');
    }
  }

  /** Byte-wise string order. */
  predicate Before(s: string, t: string) {
    t != "" && (s == "" || s[0] < t[0] || (s[0] == t[0] && Before(s[1..], t[1..])))
  }

  lemma OneDigitMore(d: nat, p: nat, v: nat, e: nat)
    ensures (d * p + v) * 32 + e == d * (32 * p) + (v * 32 + e)
  {
    assert d * (32 * p) == 32 * (d * p);
  }

  lemma {:induction false} NumberFromFront(d: Digit, ds: seq<Digit>)
    ensures Number([d] + ds) == d * Pow32(|ds|) + Number(ds)
  {
    if ds != [] {
      var n := |ds| - 1;
      var init, e := ds[..n], ds[n];
      NumberFromFront(d, init);
      assert ([d] + ds)[..|ds|] == [d] + init;
      OneDigitMore(d, Pow32(n), Number(init), e);
    }
  }

  lemma {:induction false} NumberBound(ds: seq<Digit>)
    ensures Number(ds) < Pow32(|ds|)
  {
    if ds != [] {
      NumberBound(ds[..|ds| - 1]);
    }
  }

  lemma LeadingDigitDecides(d: Digit, v: nat, e: Digit, w: nat, p: nat)
    requires v < p && w < p
    ensures d * p + v < e * p + w <==> d < e || (d == e && v < w)
  {
    if d < e {
      assert (d + 1) * p <= e * p;
    } else if e < d {
      assert (e + 1) * p <= d * p;
    }
  }

  lemma NumberOrderFromFront(ds: seq<Digit>, es: seq<Digit>)
    requires |ds| == |es| > 0
    ensures Number(ds) < Number(es)
       <==> ds[0] < es[0] || (ds[0] == es[0] && Number(ds[1..]) < Number(es[1..]))
  {
    assert ds == [ds[0]] + ds[1..] && es == [es[0]] + es[1..];
    NumberFromFront(ds[0], ds[1..]);
    NumberFromFront(es[0], es[1..]);
    NumberBound(ds[1..]);
    NumberBound(es[1..]);
    LeadingDigitDecides(ds[0], Number(ds[1..]), es[0], Number(es[1..]), Pow32(|ds| - 1));
  }

  /** For texts of one length the order of the text is the order of the numbers written. */
  lemma {:induction false} TextOrderIsNumberOrder(ds: seq<Digit>, es: seq<Digit>)
    requires |ds| == |es|
    ensures Before(Text(ds), Text(es)) <==> Number(ds) < Number(es)
  {
    if ds != [] {
      NumberOrderFromFront(ds, es);
      assert Text(ds)[1..] == Text(ds[1..]) && Text(es)[1..] == Text(es[1..]);
      SymbolsIncrease(ds[0], es[0]);
      SymbolsIncrease(es[0], ds[0]);
      TextOrderIsNumberOrder(ds[1..], es[1..]);
    }
  }

  lemma {:induction false} BeforeExtends(a: string, x: string, b: string, y: string)
    requires |a| == |b| && Before(a, b)
    ensures Before(a + x, b + y)
  {
    assert (a + x)[1..] == a[1..] + x && (b + y)[1..] == b[1..] + y;
    if a[0] == b[0] {
      BeforeExtends(a[1..], x, b[1..], y);
    }
  }

  lemma TextOfConcatenation(ds: seq<Digit>, es: seq<Digit>)
    ensures Text(ds + es) == Text(ds) + Text(es)
  {
  }

  lemma SmallerNumberSortsFirst(ds: seq<Digit>, x: string, es: seq<Digit>, y: string)
    requires |ds| == |es| && Number(ds) < Number(es)
    ensures Before(Text(ds) + x, Text(es) + y)
  {
    TextOrderIsNumberOrder(ds, es);
    BeforeExtends(Text(ds), x, Text(es), y);
  }

  lemma ClockDigitsInRange(millis: int)
    requires 0 <= millis < CLOCK_RANGE
    ensures Number(Digits(AsUint64(millis), TIME_CHARS)) == millis
  {
    ClockDigits(millis);
  }

  lemma EncodedParts(millis: int, rnd: seq<Byte>)
    ensures Encoded(millis, rnd) == Text(Digits(AsUint64(millis), TIME_CHARS)) + Text(Digits(BigEndian(rnd), 16))
  {
    TextOfConcatenation(Digits(AsUint64(millis), TIME_CHARS), Digits(BigEndian(rnd), 16));
  }

  /** An earlier millisecond sorts first, whatever the random bytes. */
  lemma EarlierSortsFirst(millis: int, rnd: seq<Byte>, millis': int, rnd': seq<Byte>)
    requires 0 <= millis < millis' < CLOCK_RANGE
    ensures Before(Encoded(millis, rnd), Encoded(millis', rnd'))
  {
    ClockDigitsInRange(millis);
    ClockDigitsInRange(millis');
    EncodedParts(millis, rnd);
    EncodedParts(millis', rnd');
    SmallerNumberSortsFirst(Digits(AsUint64(millis), TIME_CHARS), Text(Digits(BigEndian(rnd), 16)),
                            Digits(AsUint64(millis'), TIME_CHARS), Text(Digits(BigEndian(rnd'), 16)));
  }
}
