/** The z-base-32 packing of a checksum (scripts/build-repo-portable.py, `_zbase32_lsb`). */
module ZBase32 {
  import opened Common
  import opened Powers

  const ALPHABET := "ybndrfg8ejkmcpqxot1uwisza345h769"

  // ----- positional numbers, least significant digit first -----

  function Power(base: nat, n: nat): (p: nat)
    ensures base > 0 ==> p > 0
  {
    if n == 0 then 1
    else
      var rest := Power(base, n - 1);
      MulOrder(1, rest, base);
      base * rest
  }

  function FromBase(digits: seq<nat>, base: nat): nat {
    if digits == [] then 0 else digits[0] + base * FromBase(digits[1..], base)
  }

  predicate InBase(digits: seq<nat>, base: nat) {
    forall i :: 0 <= i < |digits| ==> digits[i] < base
  }

  function Digit(value: nat, base: nat, i: nat): (d: nat)
    requires base > 0
    ensures d < base
  {
    value / Power(base, i) % base
  }

  function ToBase(value: nat, base: nat, count: nat): (digits: seq<nat>)
    requires base > 0
    ensures |digits| == count && InBase(digits, base)
  {
    seq(count, i requires 0 <= i < count => Digit(value, base, i))
  }

  /** Dividing by the base takes the first digit off. */
  lemma TakeDigit(value: nat, base: nat, count: nat) returns (q: nat, r: nat)
    requires base > 0
    ensures r < base && value == q * base + r
    ensures ToBase(value, base, count + 1) == [r] + ToBase(q, base, count)
  {
    Division(value, base);
    q, r := value / base, value % base;
    forall i | 0 <= i <= count
      ensures i == 0 ==> Digit(value, base, i) == r
      ensures i > 0 ==> Digit(value, base, i) == Digit(q, base, i - 1)
    {
      DigitAbove(value, base, i);
    }
  }

  lemma DigitAbove(value: nat, base: nat, i: nat)
    requires base > 0
    ensures value / base >= 0
    ensures i == 0 ==> Digit(value, base, i) == value % base
    ensures i > 0 ==> Digit(value, base, i) == Digit(value / base, base, i - 1)
  {
    Division(value, base);
    if i == 0 {
      DivisionIsUnique(value, 1, value, 0);
    } else {
      DivDiv(value, base, Power(base, i - 1));
    }
  }

  lemma QuotientBelow(q: nat, r: nat, base: nat, bound: nat)
    requires q * base + r < base * bound
    ensures q < bound
  {
    MulOrder(bound, q, base);
  }

  lemma {:induction false} FromBaseBound(digits: seq<nat>, base: nat)
    requires InBase(digits, base)
    ensures FromBase(digits, base) < Power(base, |digits|)
    decreases |digits|
  {
    if digits != [] {
      FromBaseBound(digits[1..], base);
      var rest, p := FromBase(digits[1..], base), Power(base, |digits| - 1);
      MulOrder(rest + 1, p, base);
      assert (rest + 1) * base == base * rest + base;
    }
  }

  lemma {:induction false} ReadWrite(value: nat, base: nat, count: nat)
    requires base > 0 && value < Power(base, count)
    ensures FromBase(ToBase(value, base, count), base) == value
    decreases count
  {
    if count > 0 {
      var q, r := TakeDigit(value, base, count - 1);
      QuotientBelow(q, r, base, Power(base, count - 1));
      ReadWrite(q, base, count - 1);
      FromBaseCons(r, ToBase(q, base, count - 1), base);
    }
  }

  lemma {:induction false} WriteRead(digits: seq<nat>, base: nat)
    requires base > 0 && InBase(digits, base)
    ensures ToBase(FromBase(digits, base), base, |digits|) == digits
    decreases |digits|
  {
    if digits != [] {
      var rest := FromBase(digits[1..], base);
      var q, r := TakeDigit(FromBase(digits, base), base, |digits| - 1);
      DivisionIsUnique(q * base + r, base, rest, digits[0]);
      DivisionIsUnique(q * base + r, base, q, r);
      WriteRead(digits[1..], base);
    }
  }

  lemma FromBaseCons(first: nat, rest: seq<nat>, base: nat)
    ensures FromBase([first] + rest, base) == first + base * FromBase(rest, base)
  {
    assert ([first] + rest)[1..] == rest;
  }

  lemma {:induction false} PowerOfPowerOfTwo(k: nat, n: nat)
    ensures Power(Pow2(k), n) == Pow2(k * n)
  {
    if n > 0 {
      PowerOfPowerOfTwo(k, n - 1);
      Pow2Add(k, k * (n - 1));
      assert k + k * (n - 1) == k * n;
    }
  }

  lemma Pow2Values()
    ensures Pow2(5) == 32 && Pow2(8) == 256
  {
    assert Pow2(3) == 8;
    Pow2Add(3, 2);
    Pow2Add(5, 3);
  }

  lemma Pow2Grows(a: nat, b: nat)
    requires a <= b
    ensures Pow2(a) <= Pow2(b)
  {
    Pow2Add(a, b - a);
    MulOrder(1, Pow2(b - a), Pow2(a));
    assert Pow2(b - a) * Pow2(a) == Pow2(a) * Pow2(b - a);
  }

  lemma ShiftTwice(v: nat, a: nat, b: nat)
    ensures Shift(Shift(v, a), b) == Shift(v, a + b)
  {
    Pow2Add(a, b);
    DivDiv(v, Pow2(a), Pow2(b));
  }

  // ----- bits -----

  /** `v >> k`. */
  function Shift(v: nat, k: nat): nat {
    Division(v, Pow2(k));
    v / Pow2(k)
  }

  function Bit(v: nat, k: nat): nat {
    Shift(v, k) % 2
  }

  /** `value | bit << k` for a single bit. */
  function OrBit(value: nat, bit: nat, k: nat): nat {
    if Bit(value, k) == 1 then value else value + bit * Pow2(k)
  }

  lemma ClearAbove(v: nat, k: nat)
    requires v < Pow2(k)
    ensures v / Pow2(k) == 0
  {
    DivisionIsUnique(v, Pow2(k), 0, v);
  }

  lemma LowBitsOf(x: nat, p: nat, d: nat, q: nat, h: nat, b: nat, r: nat)
    requires 0 < p && d == p * 2 && x == q * p + r && r < p && q == h * 2 + b && b < 2
    ensures x % d == r + b * p
  {
    QuotientsCompose(x, p, 2, q, h, b, r);
    DivisionIsUnique(x, d, h, b * p + r);
  }

  lemma ShiftDivides(x: nat, k: nat)
    ensures x == Shift(x, k) * Pow2(k) + x % Pow2(k) && x % Pow2(k) < Pow2(k)
  {
    hide Pow2;
    Division(x, Pow2(k));
  }

  lemma LowBits(x: nat, k: nat)
    ensures x % Pow2(k + 1) == x % Pow2(k) + Bit(x, k) * Pow2(k)
  {
    hide Shift;
    var q, p := Shift(x, k), Pow2(k);
    ShiftDivides(x, k);
    Division(q, 2);
    LowBitsOf(x, p, Pow2(k + 1), q, q / 2, q % 2, x % p);
  }

  function Numbers(data: Bytes): (ns: seq<nat>)
    ensures |ns| == |data| && InBase(ns, 256)
    ensures forall i :: 0 <= i < |data| ==> ns[i] == data[i]
  {
    seq(|data|, i requires 0 <= i < |data| => data[i])
  }

  lemma EvenPart(x: nat, p: nat, g: nat)
    requires p > 0
    ensures (2 * g * p + x) / p % 2 == x / p % 2
  {
    Division(x, p);
    EvenQuotient(x / p, x % p, p, g);
  }

  lemma EvenQuotient(q: nat, r: nat, p: nat, g: nat)
    requires r < p
    ensures (2 * g * p + (q * p + r)) / p % 2 == q % 2
  {
    assert (2 * g + q) * p == 2 * g * p + q * p;
    DivisionIsUnique((2 * g + q) * p + r, p, 2 * g + q, r);
  }

  lemma LowByte(low: nat, high: nat, k: nat)
    requires k < 8
    ensures Bit(low + 256 * high, k) == Bit(low, k)
  {
    var p, q := Pow2(k), Pow2(7 - k);
    Pow2Values();
    Pow2Add(k, 8 - k);
    assert p * (2 * q) == 256;
    assert 2 * (high * q) * p == 256 * high by {
      assert 2 * (high * q) * p == high * (p * (2 * q));
    }
    EvenPart(low, p, high * q);
  }

  lemma HighBytes(low: nat, high: nat, k: nat)
    requires low < 256 && k >= 8
    ensures Bit(low + 256 * high, k) == Bit(high, k - 8)
  {
    Pow2Values();
    ShiftTwice(low + 256 * high, 8, k - 8);
    DivisionIsUnique(low + 256 * high, 256, high, low);
  }

  /** The bit the loop reads from a byte is that bit of the whole little-endian number. */
  lemma {:induction false} BitOfNumber(ds: seq<nat>, k: nat)
    requires InBase(ds, 256) && k < 8 * |ds|
    ensures Bit(ds[k / 8], k % 8) == Bit(FromBase(ds, 256), k)
    decreases |ds|
  {
    hide Bit;
    var rest := FromBase(ds[1..], 256);
    if k < 8 {
      LowByte(ds[0], rest, k);
    } else {
      BitOfNumber(ds[1..], k - 8);
      assert ds[1..][(k - 8) / 8] == ds[k / 8];
      HighBytes(ds[0], rest, k);
    }
  }

  // ----- the packing -----

  function DigitCount(byteCount: nat): (k: nat)
    ensures 8 * byteCount <= 5 * k < 8 * byteCount + 5
  {
    (8 * byteCount + 4) / 5
  }

  function Letters(digits: seq<nat>): (text: string)
    requires InBase(digits, 32)
    ensures |text| == |digits|
  {
    seq(|digits|, i requires 0 <= i < |digits| => ALPHABET[digits[i]])
  }

  /** The bytes read as a little-endian base-256 number. */
  function ValueOf(data: Bytes): nat {
    FromBase(Numbers(data), 256)
  }

  /** The base-32 digits of the little-endian number, least significant first, in the alphabet. */
  function Packed(data: Bytes): (text: string)
    ensures |text| == DigitCount(|data|)
  {
    Letters(ToBase(ValueOf(data), 32, DigitCount(|data|)))
  }

  /** One byte is two letters: its low five bits, then its high three. */
  lemma OneByte(b: Byte)
    ensures var letters := "ybndrfg8ejkmcpqxot1uwisza345h769";
            Packed([b]) == [letters[b % 32], letters[b / 32]]
  {
    hide ToBase, FromBase;
    assert Numbers([b]) == [b];
    OneDigit(b);
    TwoDigits(b);
  }

  lemma OneDigit(n: nat)
    ensures FromBase([n], 256) == n
  {
    assert [n][1..] == [];
  }

  lemma TwoDigits(n: nat)
    requires n < 256
    ensures ToBase(n, 32, 2) == [n % 32, n / 32]
  {
    var q, r := TakeDigit(n, 32, 1);
    assert q == n / 32 && r == n % 32;
    var q1, r1 := TakeDigit(q, 32, 0);
    assert q1 == 0 && r1 == q;
    assert ToBase(q1, 32, 0) == [];
  }

  lemma OrClear(value: nat, bit: nat, k: nat)
    requires value < Pow2(k)
    ensures OrBit(value, bit, k) == value + bit * Pow2(k)
  {
    ClearAbove(value, k);
  }

  lemma BitJoins(x: nat, b: nat)
    ensures OrBit(x % Pow2(b), Bit(x, b), b) == x % Pow2(b + 1)
  {
    LowBits(x, b);
    var low := LowPart(x, Pow2(b));
    OrClear(low, Bit(x, b), b);
  }

  lemma LowPart(x: nat, p: nat) returns (low: nat)
    requires p > 0
    ensures low == x % p && low < p
  {
    low := x % p;
  }

  /** Past the end of the number its bits are clear. */
  lemma ClearJoins(x: nat, b: nat)
    requires x < Pow2(b)
    ensures x % Pow2(b) == x % Pow2(b + 1)
  {
    LowBits(x, b);
    ClearAbove(x, b);
  }

  lemma ShiftBelow(v: nat, total: nat, i: nat, b: nat)
    requires v < Pow2(total) && total <= i + b
    ensures Shift(v, i) < Pow2(b)
  {
    Pow2Grows(total, i + b);
    Pow2Add(i, b);
    Division(v, Pow2(i));
    QuotientBelow(Shift(v, i), v % Pow2(i), Pow2(i), Pow2(b));
  }

  lemma BitOfShifted(v: nat, i: nat, b: nat)
    ensures Bit(Shift(v, i), b) == Bit(v, i + b)
  {
    ShiftTwice(v, i, b);
  }

  /** One inner round on the bytes: bits past the end are skipped. */
  lemma RoundJoins(data: Bytes, i: nat, b: nat, val: nat)
    requires val == Shift(ValueOf(data), i) % Pow2(b)
    ensures var next := if i + b < 8 * |data| then OrBit(val, Bit(data[(i + b) / 8], (i + b) % 8), b) else val;
            next == Shift(ValueOf(data), i) % Pow2(b + 1)
  {
    if i + b < 8 * |data| {
      BitOfNumber(Numbers(data), i + b);
      BitOfShifted(ValueOf(data), i, b);
      BitJoins(Shift(ValueOf(data), i), b);
    } else {
      NumberBound(data);
      ShiftBelow(ValueOf(data), 8 * |data|, i, b);
      ClearJoins(Shift(ValueOf(data), i), b);
    }
  }

  lemma NextLetter(v: nat, k: nat)
    ensures Shift(v, 5 * k) % Pow2(5) < 32
    ensures Letters(ToBase(v, 32, k + 1)) == Letters(ToBase(v, 32, k)) + [ALPHABET[Shift(v, 5 * k) % Pow2(5)]]
  {
    Pow2Values();
    PowerOfPowerOfTwo(5, k);
    assert Digit(v, 32, k) == Shift(v, 5 * k) % Pow2(5);
    assert ToBase(v, 32, k + 1) == ToBase(v, 32, k) + [Digit(v, 32, k)];
  }

  method ZBase32Lsb(data: Bytes) returns (text: string)
    ensures text == Packed(data)
  {
    text := "";
    var totalBits := |data| * 8;
    var i := 0;
    ghost var k := 0;
    while i < totalBits
      invariant i == 5 * k && k <= DigitCount(|data|)
      invariant text == Letters(ToBase(ValueOf(data), 32, k))
    {
      var val := PackDigit(data, i);
      NextLetter(ValueOf(data), k);
      text := text + [ALPHABET[val]];
      i, k := i + 5, k + 1;
    }
  }

  /** The inner loop: five bits from position i on. */
  method PackDigit(data: Bytes, i: nat) returns (val: nat)
    ensures val == Shift(ValueOf(data), i) % Pow2(5)
  {
    val := 0;
    var b := 0;
    while b < 5
      invariant b <= 5 && val == Shift(ValueOf(data), i) % Pow2(b)
    {
      var bitIndex := i + b;
      RoundJoins(data, i, b, val);
      if bitIndex < |data| * 8 {
        var bit := Bit(data[bitIndex / 8], bitIndex % 8);
        val := OrBit(val, bit, b);
      }
      b := b + 1;
    }
  }

  lemma NumberBound(data: Bytes)
    ensures ValueOf(data) < Pow2(8 * |data|)
    ensures ValueOf(data) < Power(32, DigitCount(|data|))
  {
    FromBaseBound(Numbers(data), 256);
    Pow2Values();
    PowerOfPowerOfTwo(8, |data|);
    PowerOfPowerOfTwo(5, DigitCount(|data|));
    Pow2Grows(8 * |data|, 5 * DigitCount(|data|));
  }

  // ----- unpacking -----

  function IndexIn(s: string, c: char): nat {
    if s == "" || s[0] == c then 0 else 1 + IndexIn(s[1..], c)
  }

  function DigitsOf(text: string): (digits: seq<nat>)
    ensures |digits| == |text|
  {
    seq(|text|, i requires 0 <= i < |text| => IndexIn(ALPHABET, text[i]))
  }

  /** The bytes of a packed text of known byte count. */
  function Unpacked(text: string, byteCount: nat): Bytes {
    var ns := ToBase(FromBase(DigitsOf(text), 32), 256, byteCount);
    seq(byteCount, i requires 0 <= i < byteCount => ns[i] as Byte)
  }

  lemma {:induction false} IndexOfDistinct(s: string, k: nat)
    requires k < |s| && forall i, j :: 0 <= i < j < |s| ==> s[i] != s[j]
    ensures IndexIn(s, s[k]) == k
    decreases |s|
  {
    if k > 0 {
      IndexOfDistinct(s[1..], k - 1);
    }
  }

  ghost function Place(c: char): nat {
    match c
    case 'y' => 0 case 'b' => 1 case 'n' => 2 case 'd' => 3 case 'r' => 4 case 'f' => 5 case 'g' => 6 case '8' => 7
    case 'e' => 8 case 'j' => 9 case 'k' => 10 case 'm' => 11 case 'c' => 12 case 'p' => 13 case 'q' => 14
    case 'x' => 15 case 'o' => 16 case 't' => 17 case '1' => 18 case 'u' => 19 case 'w' => 20 case 'i' => 21
    case 's' => 22 case 'z' => 23 case 'a' => 24 case '3' => 25 case '4' => 26 case '5' => 27 case 'h' => 28
    case '7' => 29 case '6' => 30 case _ => 31
  }

  lemma PlaceOfLetter()
    ensures forall i :: 0 <= i < |ALPHABET| ==> Place(ALPHABET[i]) == i
  {
  }

  lemma LettersDiffer()
    ensures forall i, j :: 0 <= i < j < |ALPHABET| ==> ALPHABET[i] != ALPHABET[j]
    ensures |ALPHABET| == 32
  {
    hide Place;
    PlaceOfLetter();
    forall i, j | 0 <= i < j < |ALPHABET|
      ensures ALPHABET[i] != ALPHABET[j]
    {
      assert Place(ALPHABET[i]) != Place(ALPHABET[j]);
    }
  }

  lemma DigitsOfLetters(digits: seq<nat>)
    requires InBase(digits, 32)
    ensures DigitsOf(Letters(digits)) == digits
  {
    LettersDiffer();
    forall i | 0 <= i < |digits|
      ensures DigitsOf(Letters(digits))[i] == digits[i]
    {
      IndexOfDistinct(ALPHABET, digits[i]);
    }
  }

  /** Nothing is lost: the bytes come back from the packing and their number. */
  lemma UnpackPacked(data: Bytes)
    ensures Unpacked(Packed(data), |data|) == data
  {
    var ns := Numbers(data);
    var v := FromBase(ns, 256);
    DigitsOfLetters(ToBase(v, 32, DigitCount(|data|)));
    NumberBound(data);
    ReadWrite(v, 32, DigitCount(|data|));
    WriteRead(ns, 256);
  }

  predicate InAlphabet(text: string) {
    forall i :: 0 <= i < |text| ==> text[i] in ALPHABET
  }

  lemma {:induction false} LetterOfIndex(s: string, c: char)
    requires c in s
    ensures IndexIn(s, c) < |s| && s[IndexIn(s, c)] == c
    decreases |s|
  {
    if s[0] != c {
      assert s == [s[0]] + s[1..];
      LetterOfIndex(s[1..], c);
    }
  }

  lemma LettersOfDigits(text: string)
    requires InAlphabet(text)
    ensures InBase(DigitsOf(text), 32) && Letters(DigitsOf(text)) == text
  {
    forall i | 0 <= i < |text|
      ensures DigitsOf(text)[i] < 32 && ALPHABET[DigitsOf(text)[i]] == text[i]
    {
      LetterOfIndex(ALPHABET, text[i]);
    }
  }

  /**
   A text is a packing of n bytes exactly when it has the length, uses the alphabet and its padding bits are clear;
   then unpacking and packing again gives it back.
   */
  lemma PackingsAre(text: string, n: nat)
    ensures (exists data: Bytes :: |data| == n && Packed(data) == text) <==>
            |text| == DigitCount(n) && InAlphabet(text) && FromBase(DigitsOf(text), 32) < Pow2(8 * n)
  {
    if |text| == DigitCount(n) && InAlphabet(text) && FromBase(DigitsOf(text), 32) < Pow2(8 * n) {
      PackUnpacked(text, n);
    }
    forall data: Bytes | |data| == n && Packed(data) == text
      ensures InAlphabet(text) && FromBase(DigitsOf(text), 32) < Pow2(8 * n)
    {
      var v := ValueOf(data);
      DigitsOfLetters(ToBase(v, 32, DigitCount(n)));
      NumberBound(data);
      ReadWrite(v, 32, DigitCount(n));
    }
  }

  lemma PackUnpacked(text: string, n: nat)
    requires |text| == DigitCount(n) && InAlphabet(text) && FromBase(DigitsOf(text), 32) < Pow2(8 * n)
    ensures Packed(Unpacked(text, n)) == text
  {
    var v := FromBase(DigitsOf(text), 32);
    Pow2Values();
    PowerOfPowerOfTwo(8, n);
    ReadWrite(v, 256, n);
    assert Numbers(Unpacked(text, n)) == ToBase(v, 256, n);
    LettersOfDigits(text);
    WriteRead(DigitsOf(text), 32);
  }
}
